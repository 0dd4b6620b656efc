/** Disk capacity: one alert when a volume crosses its threshold, and none again until it has
    dropped a margin below it or gone away. */
module Disks {
  import opened Bytes
  import opened Matching
  import opened ActiveThresholds

  const DISK_REARM_MARGIN := 0.05

  datatype Disk = Disk(mount: Name, total: nat, available: nat)

  datatype DiskAlert = DiskAlert(
    mount: Name, usedPercent: real, thresholdPercent: real, available: nat, total: nat)

  function Used(d: Disk): real {
    if d.total == 0 then 0.0
    else (if d.total > d.available then d.total - d.available else 0) as real / d.total as real
  }

  function AlertOf(d: Disk, threshold: real): DiskAlert {
    DiskAlert(d.mount, Used(d) * 100.0, threshold * 100.0, d.available, d.total)
  }

  // ---------------------------------------------------------------- one volume at a time

  /** A round lists the volumes there are, then looks at each. */
  datatype Act = Listing(mounts: set<Name>) | Volume(disk: Disk, threshold: Option<real>)

  predicate Over(act: Act) {
    act.Volume? && act.threshold.Some? && act.disk.total > 0 && Used(act.disk) >= act.threshold.value
  }

  /** The volume is gone, or clearly below its threshold. */
  predicate Rearms(act: Act, mount: Name) {
    match act
    case Listing(mounts) => mount !in mounts
    case Volume(d, threshold) =>
      && d.mount == mount && threshold.Some? && d.total > 0
      && Used(d) < threshold.value - DISK_REARM_MARGIN
  }

  function Acted(disarmed: set<Name>, act: Act): set<Name> {
    match act
    case Listing(mounts) => disarmed * mounts
    case Volume(d, threshold) =>
      if threshold.None? || d.total == 0 then disarmed
      else if d.mount in disarmed then
        if Used(d) < threshold.value - DISK_REARM_MARGIN then disarmed - {d.mount} else disarmed
      else if Used(d) >= threshold.value then disarmed + {d.mount}
      else disarmed
  }

  function Alerted(disarmed: set<Name>, act: Act): seq<DiskAlert> {
    if Over(act) && act.disk.mount !in disarmed then [AlertOf(act.disk, act.threshold.value)] else []
  }

  function ActAll(disarmed: set<Name>, acts: seq<Act>): set<Name> {
    if acts == [] then disarmed else Acted(ActAll(disarmed, acts[..|acts| - 1]), acts[|acts| - 1])
  }

  function AlertAll(disarmed: set<Name>, acts: seq<Act>): seq<DiskAlert> {
    if acts == [] then []
    else
      var before := acts[..|acts| - 1];
      AlertAll(disarmed, before) + Alerted(ActAll(disarmed, before), acts[|acts| - 1])
  }

  function MountsOf(disks: seq<Disk>): (mounts: set<Name>)
    ensures forall m :: m in mounts <==> exists i :: 0 <= i < |disks| && disks[i].mount == m
  {
    set i | 0 <= i < |disks| :: disks[i].mount
  }

  function Looks(disks: seq<Disk>, thresholds: Thresholds): (acts: seq<Act>)
    ensures |acts| == |disks|
    ensures forall i :: 0 <= i < |acts| ==> acts[i] == Volume(disks[i], ForProcess(thresholds, disks[i].mount))
  {
    seq(|disks|, i requires 0 <= i < |disks| => Volume(disks[i], ForProcess(thresholds, disks[i].mount)))
  }

  function RoundOf(disks: Option<seq<Disk>>, thresholds: Thresholds): seq<Act> {
    match disks
    case None => []
    case Some(ds) => [Listing(MountsOf(ds))] + Looks(ds, thresholds)
  }

  /** The engine's `disk_disarmed`. */
  class DiskRule {
    var disarmed: set<Name>

    constructor ()
      ensures disarmed == {}
    {
      disarmed := {};
    }

    method Look(d: Disk, threshold: Option<real>) returns (alerts: seq<DiskAlert>)
      modifies this
      ensures disarmed == Acted(old(disarmed), Volume(d, threshold))
      ensures alerts == Alerted(old(disarmed), Volume(d, threshold))
    {
      alerts := [];
      if threshold.Some? && d.total != 0 {
        var used := Used(d);
        if d.mount in disarmed {
          if used < threshold.value - DISK_REARM_MARGIN {
            disarmed := disarmed - {d.mount};
          }
        } else if used >= threshold.value {
          disarmed := disarmed + {d.mount};
          alerts := [AlertOf(d, threshold.value)];
        }
      }
    }

    method LookAll(disks: seq<Disk>, thresholds: Thresholds) returns (alerts: seq<DiskAlert>)
      modifies this
      ensures disarmed == ActAll(old(disarmed), Looks(disks, thresholds))
      ensures alerts == AlertAll(old(disarmed), Looks(disks, thresholds))
    {
      hide ActAll, AlertAll, Acted, Alerted, ForProcess, MountsOf;
      ghost var acts := Looks(disks, thresholds);
      NoActs(disarmed, acts);
      alerts := [];
      var i := 0;
      while i < |disks|
        invariant i <= |disks|
        invariant disarmed == ActAll(old(disarmed), acts[..i])
        invariant alerts == AlertAll(old(disarmed), acts[..i])
      {
        NextAct(old(disarmed), acts, i);
        var more := Look(disks[i], ForProcess(thresholds, disks[i].mount));
        alerts := alerts + more;
        i := i + 1;
      }
      assert acts[..i] == acts;
    }

    method Evaluate(disks: Option<seq<Disk>>, thresholds: Thresholds) returns (alerts: seq<DiskAlert>)
      modifies this
      ensures disarmed == ActAll(old(disarmed), RoundOf(disks, thresholds))
      ensures alerts == AlertAll(old(disarmed), RoundOf(disks, thresholds))
    {
      hide ActAll, AlertAll, ForProcess, MountsOf, Looks;
      alerts := [];
      if disks.None? {
        NoActs(disarmed, []);
        return;
      }
      var mounts := MountsOf(disks.value);
      disarmed := set m | m in disarmed && m in mounts;
      assert disarmed == old(disarmed) * mounts;
      ListingFirst(old(disarmed), mounts, Looks(disks.value, thresholds));
      alerts := LookAll(disks.value, thresholds);
    }
  }

  lemma NoActs(disarmed: set<Name>, acts: seq<Act>)
    ensures ActAll(disarmed, acts[..0]) == disarmed && AlertAll(disarmed, acts[..0]) == []
    ensures ActAll(disarmed, []) == disarmed && AlertAll(disarmed, []) == []
  {
  }

  lemma OneMore(disarmed: set<Name>, acts: seq<Act>, act: Act)
    ensures ActAll(disarmed, acts + [act]) == Acted(ActAll(disarmed, acts), act)
    ensures AlertAll(disarmed, acts + [act]) == AlertAll(disarmed, acts) + Alerted(ActAll(disarmed, acts), act)
  {
    assert (acts + [act])[..|acts|] == acts;
  }

  /** Acts one after the other. */
  lemma {:induction false} ActsSplit(disarmed: set<Name>, a: seq<Act>, b: seq<Act>)
    ensures ActAll(disarmed, a + b) == ActAll(ActAll(disarmed, a), b)
    ensures AlertAll(disarmed, a + b) == AlertAll(disarmed, a) + AlertAll(ActAll(disarmed, a), b)
  {
    hide Acted, Alerted, ActAll, AlertAll;
    NoActs(ActAll(disarmed, a), []);
    if b == [] {
      assert a + b == a;
    } else {
      var before, act := b[..|b| - 1], b[|b| - 1];
      ActsSplit(disarmed, a, before);
      OneMore(disarmed, a + before, act);
      OneMore(ActAll(disarmed, a), before, act);
      assert (a + before) + [act] == a + b && before + [act] == b;
    }
  }

  lemma ListingFirst(disarmed: set<Name>, mounts: set<Name>, acts: seq<Act>)
    ensures ActAll(disarmed, [Listing(mounts)] + acts) == ActAll(disarmed * mounts, acts)
    ensures AlertAll(disarmed, [Listing(mounts)] + acts) == AlertAll(disarmed * mounts, acts)
  {
    assert [Listing(mounts)][..0] == [];
    ActsSplit(disarmed, [Listing(mounts)], acts);
  }

  lemma NextAct(disarmed: set<Name>, acts: seq<Act>, i: nat)
    requires i < |acts|
    ensures ActAll(disarmed, acts[..i + 1]) == Acted(ActAll(disarmed, acts[..i]), acts[i])
    ensures AlertAll(disarmed, acts[..i + 1])
         == AlertAll(disarmed, acts[..i]) + Alerted(ActAll(disarmed, acts[..i]), acts[i])
  {
    assert acts[..i + 1][..i] == acts[..i];
  }

  // ---------------------------------------------------------------- over a run

  /** Whether the `p`th act of a run raises an alert. */
  predicate AlertsAt(acts: seq<Act>, p: nat)
    requires p < |acts|
  {
    Over(acts[p]) && acts[p].disk.mount !in ActAll({}, acts[..p])
  }

  /** The volume alerted at `q` and has not re-armed since. */
  predicate HeldSince(acts: seq<Act>, q: nat, mount: Name) {
    && q < |acts| && AlertsAt(acts, q) && acts[q].disk.mount == mount
    && forall k :: q < k < |acts| ==> !Rearms(acts[k], mount)
  }

  lemma HeldLonger(acts: seq<Act>, act: Act, q: nat, mount: Name)
    requires q < |acts|
    ensures HeldSince(acts + [act], q, mount) <==> HeldSince(acts, q, mount) && !Rearms(act, mount)
  {
    var more := acts + [act];
    assert more[..q] == acts[..q] && more[|acts|] == act;
    assert forall k :: 0 <= k < |acts| ==> more[k] == acts[k];
  }

  lemma {:induction false} DisarmedIsHeld(acts: seq<Act>, mount: Name)
    ensures mount in ActAll({}, acts) <==> exists q: nat :: HeldSince(acts, q, mount)
  {
    if acts != [] {
      var last := |acts| - 1;
      var before, act := acts[..last], acts[last];
      DisarmedIsHeld(before, mount);
      assert before + [act] == acts;
      forall q: nat | q < last
        ensures HeldSince(acts, q, mount) <==> HeldSince(before, q, mount) && !Rearms(act, mount)
      {
        HeldLonger(before, act, q, mount);
      }
      assert HeldSince(acts, last, mount) <==> AlertsAt(acts, last) && act.disk.mount == mount;
      if q: nat :| HeldSince(before, q, mount) {
        assert q < last;
      }
    }
  }

  /** A look alerts exactly when the volume is at its threshold and every earlier alert for it
      was followed by its going away or dropping clear of the threshold. */
  lemma AlertsExactlyOncePerCrossing(acts: seq<Act>, p: nat)
    requires p < |acts|
    ensures AlertsAt(acts, p) <==>
              && Over(acts[p])
              && forall q: nat :: q < p && AlertsAt(acts, q) && acts[q].disk.mount == acts[p].disk.mount ==>
                   exists k :: q < k < p && Rearms(acts[k], acts[p].disk.mount)
  {
    if Over(acts[p]) {
      var mount, before := acts[p].disk.mount, acts[..p];
      DisarmedIsHeld(before, mount);
      forall q: nat | q < p
        ensures HeldSince(before, q, mount) <==>
                  && AlertsAt(acts, q) && acts[q].disk.mount == mount
                  && !exists k :: q < k < p && Rearms(acts[k], mount)
      {
        assert before[..q] == acts[..q];
        assert forall k :: 0 <= k < p ==> before[k] == acts[k];
      }
    }
  }

  // ---------------------------------------------------------------- said in bytes

  /** The bytes of a volume in use; more available than there is counts as none in use. */
  function InUse(d: Disk): nat {
    if d.available >= d.total then 0 else d.total - d.available
  }

  lemma UsedShare(d: Disk, share: real)
    requires d.total > 0
    ensures Used(d) == InUse(d) as real / d.total as real
    ensures Used(d) >= share <==> InUse(d) as real >= share * d.total as real
  {
    var used, total := InUse(d) as real, d.total as real;
    assert used == used / total * total;
    if used / total >= share { Scaled(share, used / total, total); } else { Scaled(used / total, share, total); }
    assert used / total < share ==> used < share * total by {
      assert (share - used / total) * total == share * total - used;
    }
  }

  lemma Scaled(a: real, b: real, c: real)
    requires a <= b && c > 0.0
    ensures a * c <= b * c
  {
    assert (b - a) * c >= 0.0;
  }

  /** One look at a volume: an armed one alerts and is disarmed exactly when the bytes in use reach
      its threshold of its size; a disarmed one never alerts, and is armed again exactly when they
      are below its threshold less five hundredths of its size. A volume of no size, or without a
      threshold, is left alone. */
  lemma LookMeans(disarmed: set<Name>, d: Disk, threshold: Option<real>)
    ensures threshold.None? || d.total == 0 ==>
              Acted(disarmed, Volume(d, threshold)) == disarmed && Alerted(disarmed, Volume(d, threshold)) == []
    ensures threshold.Some? && d.total > 0 ==>
              var act, used, size := Volume(d, threshold), InUse(d) as real, d.total as real;
              && (d.mount !in disarmed ==>
                    if used >= threshold.value * size then
                      && Acted(disarmed, act) == disarmed + {d.mount}
                      && Alerted(disarmed, act)
                         == [DiskAlert(d.mount, used / size * 100.0, threshold.value * 100.0, d.available, d.total)]
                    else
                      Acted(disarmed, act) == disarmed && Alerted(disarmed, act) == [])
              && (d.mount in disarmed ==>
                    && Alerted(disarmed, act) == []
                    && Acted(disarmed, act)
                       == if used < (threshold.value - 0.05) * size then disarmed - {d.mount} else disarmed)
  {
    if threshold.Some? && d.total > 0 {
      UsedShare(d, threshold.value);
      UsedShare(d, threshold.value - 0.05);
      hide Used, InUse;
    }
  }

  /** A listing arms again exactly what is not listed any more. */
  lemma ListingMeans(disarmed: set<Name>, mounts: set<Name>, mount: Name)
    ensures mount in Acted(disarmed, Listing(mounts)) <==> mount in disarmed && mount in mounts
    ensures Alerted(disarmed, Listing(mounts)) == []
  {
  }

  /** A round without a list does nothing; with one it first lists exactly the mounts there are, and
      then looks at each volume in turn, with the threshold for its mount. */
  lemma RoundMeans(disks: Option<seq<Disk>>, thresholds: Thresholds)
    ensures disks.None? ==> RoundOf(disks, thresholds) == []
    ensures disks.Some? ==>
              var round := RoundOf(disks, thresholds);
              && |round| == |disks.value| + 1 && round[0].Listing?
              && (forall m :: m in round[0].mounts <==> exists i :: 0 <= i < |disks.value| && disks.value[i].mount == m)
              && forall k :: 0 < k < |round| ==>
                   round[k] == Volume(disks.value[k - 1], ForProcess(thresholds, disks.value[k - 1].mount))
  {
    hide ForProcess, MountsOf, Looks;
    if disks.Some? {
      var round, looks := RoundOf(disks, thresholds), Looks(disks.value, thresholds);
      assert round[0] == Listing(MountsOf(disks.value));
      forall k | 0 < k < |round|
        ensures round[k] == Volume(disks.value[k - 1], ForProcess(thresholds, disks.value[k - 1].mount))
      {
        assert round[k] == looks[k - 1];
      }
    }
  }
}
