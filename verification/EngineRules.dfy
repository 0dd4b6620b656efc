/** The pressure rule and the disk rule inside the engine: over any run they do what they do on
    their own, so that everything proved of their runs holds of the engine's. */
module EngineRules {
  import opened Bytes
  import opened Rolling
  import Ep = Episodes
  import P = Pressure
  import PR = PressureRuns
  import D = Disks
  import opened Engine
  import opened EngineRuns

  /** The pressure events among those of an evaluation. */
  function Pressures(events: seq<Event>): seq<P.PressureAlert> {
    if events == [] then []
    else
      var last := events[|events| - 1];
      Pressures(events[..|events| - 1]) + if last.System? then [last.pressure] else []
  }

  /** The disk events among those of an evaluation. */
  function Fills(events: seq<Event>): seq<D.DiskAlert> {
    if events == [] then []
    else
      var last := events[|events| - 1];
      Fills(events[..|events| - 1]) + if last.Volume? then [last.disk] else []
  }

  lemma {:induction false} FiltersSplit(a: seq<Event>, b: seq<Event>)
    ensures Pressures(a + b) == Pressures(a) + Pressures(b) && Fills(a + b) == Fills(a) + Fills(b)
  {
    if b == [] {
      assert a + b == a;
    } else {
      assert (a + b)[..|a + b| - 1] == a + b[..|b| - 1];
      FiltersSplit(a, b[..|b| - 1]);
    }
  }

  lemma {:induction false} OnlyUsage(events: seq<Event>)
    requires forall e :: e in events ==> e.Usage?
    ensures Pressures(events) == [] && Fills(events) == []
  {
    if events != [] {
      assert events[|events| - 1] in events;
      OnlyUsage(events[..|events| - 1]);
    }
  }

  lemma {:induction false} OnlyVolumes(alerts: seq<D.DiskAlert>)
    ensures Pressures(Volumes(alerts)) == [] && Fills(Volumes(alerts)) == alerts
  {
    if alerts != [] {
      var last := |alerts| - 1;
      assert Volumes(alerts)[..last] == Volumes(alerts[..last]);
      OnlyVolumes(alerts[..last]);
    }
  }

  lemma OnlyPressure(st: State, i: Input)
    ensures Fills(PressureEvents(st, i.now, i.snap, i.a)) == []
    ensures Pressures(PressureEvents(st, i.now, i.snap, i.a))
         == match P.PressureStep(st.pressure, i.now, i.a.pressure, i.snap.pressureLevel).1
            case Some(alert) => [alert] case None => []
  {
    hide P.PressureStep;
    var events := PressureEvents(st, i.now, i.snap, i.a);
    assert events != [] ==> events[..0] == [];
  }

  lemma {:induction false} PassesAreUsage(vs: seq<Verdict>, book: Ep.Book, now: nat, cooldown: nat)
    ensures forall e :: e in EventsOf(vs, book, now, cooldown) ==> e.Usage?
  {
    forall e | e in EventsOf(vs, book, now, cooldown) ensures e.Usage? {
      var n := EventHasVerdict(vs, book, now, cooldown, e);
    }
  }

  lemma PassesTellUsage(st: State, book: Ep.Book, i: Input)
    ensures forall e :: e in AppEvents(st, i.now, i.snap, i.a) ==> e.Usage?
    ensures forall e :: e in ProcessEvents(st, book, i.now, i.snap, i.a) ==> e.Usage?
  {
    hide EventsOf, AppVerdictsAt, ProcessVerdictsAt, StatsMap, AppsAfter, WindowAfter, Ep.Acted;
    if AppsEvaluated(i.snap, i.a) {
      PassesAreUsage(
        AppVerdictsAt(st, i.now, i.snap, i.a),
        Ep.Acted(st.book, Ep.Apps(StatsMap(AppsAfter(st, i.now, i.snap, i.a), i.now).Keys)), i.now, i.a.cooldown);
    }
    if i.snap.processes.Some? {
      PassesAreUsage(
        ProcessVerdictsAt(st, i.now, i.snap, i.a),
        Ep.Acted(book, Ep.Processes(StatsMap(WindowAfter(st.fast, P.WINDOW, i.now, i.snap), i.now).Keys)), i.now,
        i.a.cooldown);
    }
  }

  /** What one evaluation tells of pressure and of disks. */
  lemma ToldByRules(st: State, i: Input)
    ensures Pressures(Told(st, i.now, i.snap, i.a)) == Pressures(PressureEvents(st, i.now, i.snap, i.a))
    ensures Fills(Told(st, i.now, i.snap, i.a)) == D.AlertAll(st.disarmed, D.RoundOf(i.snap.disks, i.a.disk))
  {
    hide Pressures, Fills, PressureEvents, AppEvents, ProcessEvents, AppActs, D.AlertAll, D.RoundOf, Ep.ActAll;
    var alerts := D.AlertAll(st.disarmed, D.RoundOf(i.snap.disks, i.a.disk));
    var pressure, apps := PressureEvents(st, i.now, i.snap, i.a), AppEvents(st, i.now, i.snap, i.a);
    var book := Ep.ActAll(st.book, AppActs(st, i.now, i.snap, i.a));
    var processes := ProcessEvents(st, book, i.now, i.snap, i.a);
    PassesTellUsage(st, book, i);
    OnlyVolumes(alerts);
    OnlyPressure(st, i);
    OnlyUsage(apps);
    OnlyUsage(processes);
    FiltersSplit(Volumes(alerts) + pressure + apps, processes);
    FiltersSplit(Volumes(alerts) + pressure, apps);
    FiltersSplit(Volumes(alerts), pressure);
  }

  // ---------------------------------------------------------------- pressure

  /** What the pressure rule sees of a run. */
  function PressureInputs(inputs: seq<Input>): (ps: seq<PR.Input>)
    ensures |ps| == |inputs|
    ensures forall n :: 0 <= n < |ps| ==>
              ps[n] == PR.Input(inputs[n].now, inputs[n].a.pressure, inputs[n].snap.pressureLevel)
  {
    seq(|inputs|, n requires 0 <= n < |inputs| =>
      PR.Input(inputs[n].now, inputs[n].a.pressure, inputs[n].snap.pressureLevel))
  }

  datatype Warning = Warning(at: nat, alert: P.PressureAlert)

  function Stamped(alerts: seq<P.PressureAlert>, now: nat): (ws: seq<Warning>)
    ensures |ws| == |alerts| && forall n :: 0 <= n < |ws| ==> ws[n] == Warning(now, alerts[n])
  {
    seq(|alerts|, n requires 0 <= n < |alerts| => Warning(now, alerts[n]))
  }

  /** Every pressure event of a run, with its time. */
  function PressureTold(inputs: seq<Input>): seq<Warning> {
    if inputs == [] then []
    else
      PressureTold(inputs[..|inputs| - 1]) + Stamped(Pressures(ToldAt(inputs)), inputs[|inputs| - 1].now)
  }

  function Warnings(notes: seq<PR.Notice>): (ws: seq<Warning>)
    ensures |ws| == |notes|
    ensures forall n :: 0 <= n < |ws| ==>
              ws[n] == Warning(notes[n].at, P.PressureAlert(notes[n].level, notes[n].sustained, notes[n].repeatAfter))
  {
    seq(|notes|, n requires 0 <= n < |notes| =>
      Warning(notes[n].at, P.PressureAlert(notes[n].level, notes[n].sustained, notes[n].repeatAfter)))
  }

  lemma PressureNext(st: State, t: PR.Trace, i: Input)
    requires st.pressure == t.state
    ensures var next := PR.Next(t, PR.Input(i.now, i.a.pressure, i.snap.pressureLevel));
            && Next(st, i.now, i.snap, i.a).pressure == next.state
            && Warnings(next.notes) == Warnings(t.notes) + Stamped(Pressures(Told(st, i.now, i.snap, i.a)), i.now)
  {
    hide P.PressureStep, PR.Ends, Told, Pressures, BookAfter, AppsAfter, WindowAfter, D.ActAll, D.RoundOf, RecordDue,
         PressureEvents;
    ToldByRules(st, i);
    OnlyPressure(st, i);
  }

  lemma RunOfNext(inputs: seq<Input>)
    requires inputs != []
    ensures var before, i := inputs[..|inputs| - 1], inputs[|inputs| - 1];
            PR.RunOf(PressureInputs(inputs))
            == PR.Next(PR.RunOf(PressureInputs(before)), PR.Input(i.now, i.a.pressure, i.snap.pressureLevel))
  {
    var before := inputs[..|inputs| - 1];
    assert PressureInputs(inputs)[..|before|] == PressureInputs(before);
    hide PR.Next;
  }

  /** Over any run, the engine's pressure fields are those of the rule on its own, and the
      pressure events told are its notices, in order. */
  lemma {:induction false} PressureIsItsRun(inputs: seq<Input>)
    ensures var t := PR.RunOf(PressureInputs(inputs));
            RunState(inputs).pressure == t.state && PressureTold(inputs) == Warnings(t.notes)
  {
    hide PR.Next, Next, Told, Pressures;
    if inputs == [] {
      assert PressureInputs(inputs) == [];
    } else {
      var before, i := inputs[..|inputs| - 1], inputs[|inputs| - 1];
      PressureIsItsRun(before);
      RunOfNext(inputs);
      hide PR.RunOf;
      PressureNext(RunState(before), PR.RunOf(PressureInputs(before)), i);
    }
  }

  /** Every pressure event of a run is of an evaluation at its time, of the level seen there, and
      that level is at or above the threshold then in force. */
  lemma {:induction false} WarningsMeetThreshold(inputs: seq<Input>, k: nat) returns (x: nat)
    requires k < |PressureTold(inputs)|
    ensures var w := PressureTold(inputs)[k];
            && x < |inputs| && inputs[x].now == w.at && inputs[x].snap.pressureLevel == Some(w.alert.level)
            && inputs[x].a.pressure.Some? && w.alert.level >= inputs[x].a.pressure.value
  {
    hide PressureTold, PR.RunOf, RunState;
    PressureIsItsRun(inputs);
    x := PR.NoticesMeetThreshold(PressureInputs(inputs), k);
  }

  /** So, for instance: once the level has been high for as long as it must, the engine has told
      of it, and it never falls silent for four hours while that lasts. */
  lemma {:induction false} PressureIsHeard(inputs: seq<Input>, k: nat)
    requires InTime(inputs) && PR.AboveSince(PressureInputs(inputs), k)
    requires var i := inputs[|inputs| - 1];
             && i.snap.pressureLevel.value >= i.a.pressure.value
             && i.now >= inputs[k].now + if i.snap.pressureLevel.value >= 4 then 60 * SECOND else 5 * 60 * SECOND
    ensures var told := PressureTold(inputs);
            told != [] && inputs[|inputs| - 1].now < told[|told| - 1].at + 4 * 60 * 60 * SECOND
  {
    hide PR.RunOf, PressureTold, RunState;
    var ps := PressureInputs(inputs);
    PressureIsItsRun(inputs);
    PR.SinceReachesBack(ps, k);
    PR.ToldByThen(ps);
    PR.NeverSilentForLong(ps);
  }

  // ---------------------------------------------------------------- disks

  /** Every round of the disk rule, one after the other. */
  function Rounds(inputs: seq<Input>): seq<D.Act> {
    if inputs == [] then []
    else
      var i := inputs[|inputs| - 1];
      Rounds(inputs[..|inputs| - 1]) + D.RoundOf(i.snap.disks, i.a.disk)
  }

  /** Every disk event of a run. */
  function DisksTold(inputs: seq<Input>): seq<D.DiskAlert> {
    if inputs == [] then [] else DisksTold(inputs[..|inputs| - 1]) + Fills(ToldAt(inputs))
  }

  /** Over any run, the engine's disarmed volumes are those of the rule on its own, and the disk
      events told are its alerts, in order. */
  lemma {:induction false} DisksAreTheirRounds(inputs: seq<Input>)
    ensures RunState(inputs).disarmed == D.ActAll({}, Rounds(inputs))
    ensures DisksTold(inputs) == D.AlertAll({}, Rounds(inputs))
  {
    if inputs != [] {
      var last := |inputs| - 1;
      var i, was := inputs[last], RunState(inputs[..last]);
      DisksAreTheirRounds(inputs[..last]);
      hide D.ActAll, D.AlertAll, D.RoundOf, Told, Fills, BookAfter, AppsAfter, WindowAfter, P.PressureStep, RecordDue;
      D.ActsSplit({}, Rounds(inputs[..last]), D.RoundOf(i.snap.disks, i.a.disk));
      ToldByRules(was, i);
    }
  }
}
