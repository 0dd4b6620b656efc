/** What the engine compares with what, and what its events say, in terms of the settings and of
    the samples alone. */
module EngineBars {
  import opened Bytes
  import opened Matching
  import opened ActiveThresholds
  import opened Rolling
  import Ep = Episodes
  import P = Pressure
  import opened Engine
  import opened EngineRuns

  // ---------------------------------------------------------------- memory

  lemma BarsAreBars(a: Active, name: Name, total: nat, amount: real)
    ensures MemoryBar(a, name, total).Some? <==> HasBar(a.memory, a.memoryBytes, name)
    ensures AppMemoryBar(a, name, total).Some? <==> HasBar(a.appMemory, a.appMemoryBytes, name)
    ensures (MemoryBar(a, name, total).Some? && AsU64(amount) >= MemoryBar(a, name, total).value)
       <==> OverBar(a.memory, a.memoryBytes, name, total, amount)
    ensures (AppMemoryBar(a, name, total).Some? && AsU64(amount) >= AppMemoryBar(a, name, total).value)
       <==> OverBar(a.appMemory, a.appMemoryBytes, name, total, amount)
  {
    hide OverBar, HasBar, BarBytes, AsU64;
    OverBarMeans(a.memory, a.memoryBytes, name, total, amount);
    OverBarMeans(a.appMemory, a.appMemoryBytes, name, total, amount);
  }

  /** A process is judged by its memory when there is a bar for its name and 250 seconds of it are
      known, and is over it exactly when its five-minute mean in whole bytes reaches the fraction
      of the best entry that claims its name, or, if none does, the base fraction or the
      ceiling. */
  lemma ProcessMemoryExactly(inputs: seq<Input>, j: nat)
    requires inputs != [] && InTime(inputs)
    requires var ps := inputs[|inputs| - 1].snap.processes; ps.Some? && j < |ps.value|
    ensures var i, st := inputs[|inputs| - 1], RunState(inputs);
            var p, log, total := i.snap.processes.value[j], Log(inputs), i.snap.totalMemory;
            var v := MemoryVerdict(p, StatsMap(st.fast, i.now), StatsMap(st.slow, i.now), i.a, total);
            var recent := Recent(Full(log, p.pid), i.now, 300 * SECOND);
            && recent != []
            && (!v.Unjudged? <==>
                  HasBar(i.a.memory, i.a.memoryBytes, p.name) && total > 0
                  && i.now >= recent[0].at + 250 * SECOND)
            && (v.Above? <==>
                  !v.Unjudged? && OverBar(i.a.memory, i.a.memoryBytes, p.name, total, HeldMean(recent)))
  {
    hide RunState, Log, Recent, Full, InTime, StatsMap, HeldMean, MemoryBar, AsU64, MemoryVerdict, OverBar, HasBar,
         AppMemoryBar;
    MemoryJudgedExactly(inputs, j);
    var i := inputs[|inputs| - 1];
    var p := i.snap.processes.value[j];
    var recent := Recent(Full(Log(inputs), p.pid), i.now, 300 * SECOND);
    BarsAreBars(i.a, p.name, i.snap.totalMemory, HeldMean(recent));
  }

  /** The same for applications. */
  lemma AppMemoryExactly(inputs: seq<Input>, j: nat)
    requires inputs != [] && InTime(inputs)
    requires var i := inputs[|inputs| - 1]; AppsEvaluated(i.snap, i.a) && j < |i.snap.groups.value|
    ensures var i, st := inputs[|inputs| - 1], RunState(inputs);
            var g, log, total := i.snap.groups.value[j], AppLog(inputs), i.snap.totalMemory;
            var v := AppMemoryVerdict(g, StatsMap(st.apps, i.now), i.a, total);
            var recent := Recent(Full(log, g.root), i.now, 300 * SECOND);
            && recent != []
            && (!v.Unjudged? <==>
                  HasBar(i.a.appMemory, i.a.appMemoryBytes, g.name) && total > 0
                  && i.now >= recent[0].at + 250 * SECOND)
            && (v.Above? <==>
                  !v.Unjudged? && OverBar(i.a.appMemory, i.a.appMemoryBytes, g.name, total, HeldMean(recent)))
  {
    hide RunState, AppLog, Recent, Full, InTime, StatsMap, HeldMean, MemoryBar, AsU64, AppMemoryVerdict, AppCpuVerdict,
         OverBar, HasBar, AppMemoryBar, ForProcess, CpuMean, AnyEnabled;
    AppsJudgedExactly(inputs, j);
    var i := inputs[|inputs| - 1];
    var g := i.snap.groups.value[j];
    var recent := Recent(Full(AppLog(inputs), g.root), i.now, 300 * SECOND);
    BarsAreBars(i.a, g.name, i.snap.totalMemory, HeldMean(recent));
  }

  // ---------------------------------------------------------------- when applications are looked at

  /** Applications are evaluated when they are listed and some application rule is on: a base, or
      an entry with a value. */
  lemma AppsEvaluatedMeans(snap: Snapshot, a: Active)
    ensures AppsEvaluated(snap, a)
       <==> snap.groups.Some?
            && (|| a.appCpu.base.Some? || a.appMemory.base.Some?
                || (exists i :: 0 <= i < |a.appCpu.overrides| && a.appCpu.overrides[i].value.Some?)
                || (exists i :: 0 <= i < |a.appMemory.overrides| && a.appMemory.overrides[i].value.Some?))
  {
  }

  /** The history of an application: one sample of its totals for each evaluation of a list that has
      it once, which carries no CPU time; none once such a list lacks it; and nothing from
      evaluations that pass applications over. */
  lemma {:induction false} AppSamples(inputs: seq<Input>, root: Pid, j: nat)
    requires inputs != []
    ensures var i, before := inputs[|inputs| - 1], Full(AppLog(inputs[..|inputs| - 1]), root);
            && (!AppsEvaluated(i.snap, i.a) ==> Full(AppLog(inputs), root) == before)
            && (AppsEvaluated(i.snap, i.a) && (forall k :: 0 <= k < |i.snap.groups.value| ==>
                                                 i.snap.groups.value[k].root != root) ==>
                  Full(AppLog(inputs), root) == [])
            && (AppsEvaluated(i.snap, i.a) && j < |i.snap.groups.value|
                && (forall k :: 0 <= k < |i.snap.groups.value| ==>
                      (i.snap.groups.value[k].root == root <==> k == j)) ==>
                  var g := i.snap.groups.value[j];
                  Full(AppLog(inputs), root) == before + [Sample(i.now, g.cpu, g.memory, g.footprint, 0)])
  {
    var i := inputs[|inputs| - 1];
    if AppsEvaluated(i.snap, i.a) {
      hide Full, AppsEvaluated;
      FullGrows(AppLog(inputs[..|inputs| - 1]), Observation(i.now, AsProcesses(i.snap.groups.value)), root, j);
    } else {
      hide Full;
      assert AppLog(inputs[..|inputs| - 1]) + [] == AppLog(inputs[..|inputs| - 1]);
    }
  }

  /** The same for a process, from the lists of processes. */
  lemma {:induction false} ProcessSamples(inputs: seq<Input>, pid: Pid, j: nat)
    requires inputs != []
    ensures var i, before := inputs[|inputs| - 1], Full(Log(inputs[..|inputs| - 1]), pid);
            && (i.snap.processes.None? ==> Full(Log(inputs), pid) == before)
            && (i.snap.processes.Some? && (forall k :: 0 <= k < |i.snap.processes.value| ==>
                                             i.snap.processes.value[k].pid != pid) ==>
                  Full(Log(inputs), pid) == [])
            && (i.snap.processes.Some? && j < |i.snap.processes.value|
                && (forall k :: 0 <= k < |i.snap.processes.value| ==>
                      (i.snap.processes.value[k].pid == pid <==> k == j)) ==>
                  var p := i.snap.processes.value[j];
                  Full(Log(inputs), pid) == before + [Sample(i.now, p.cpu, p.memory, p.footprint, p.cpuTime)])
  {
    hide Full;
    var i := inputs[|inputs| - 1];
    if i.snap.processes.Some? {
      FullGrows(Log(inputs[..|inputs| - 1]), Observation(i.now, i.snap.processes.value), pid, j);
    } else {
      assert Log(inputs[..|inputs| - 1]) + [] == Log(inputs[..|inputs| - 1]);
    }
  }

  /** When they are not, nothing is remembered of them, */
  lemma {:induction false} AppsPassedOver(inputs: seq<Input>)
    requires inputs != [] && !AppsEvaluated(inputs[|inputs| - 1].snap, inputs[|inputs| - 1].a)
    ensures RunState(inputs).apps == RunState(inputs[..|inputs| - 1]).apps
  {
    hide BookAfter, P.PressureStep, WindowAfter, AppsEvaluated;
  }

  /** and nothing is told of them. */
  lemma {:induction false} NothingOfApps(inputs: seq<Input>)
    requires inputs != [] && !AppsEvaluated(inputs[|inputs| - 1].snap, inputs[|inputs| - 1].a)
    ensures forall e :: e in ToldAt(inputs) ==> !(e.Usage? && e.subject.OfApp?)
  {
    hide *;
    forall e | e in ToldAt(inputs) ensures !(e.Usage? && e.subject.OfApp?) {
      if e.Usage? {
        var j := EventSource(inputs, e);
      }
    }
  }

  // ---------------------------------------------------------------- what events say

  /** A CPU event calls a process a runaway exactly when its one-minute mean is three times its
      threshold; otherwise its five-minute mean is told. */
  lemma RunawayExactly(inputs: seq<Input>, e: Event) returns (j: nat)
    requires inputs != [] && InTime(inputs)
    requires e in ToldAt(inputs) && e.Usage? && e.subject.OfProcess? && e.detail.Cpu?
    ensures var i, log := inputs[|inputs| - 1], Log(inputs);
            && i.snap.processes.Some? && j < |i.snap.processes.value|
            && (var p, t := i.snap.processes.value[j], ForProcess(i.a.cpu, i.snap.processes.value[j].name);
                && e.subject == OfProcess(p.pid, p.name) && t.Some?
                && (e.detail.runaway <==> RunsHot(log, p.pid, i.now, 60 * SECOND, 50 * SECOND, 3.0 * t.value))
                && (var window := if e.detail.runaway then 60 * SECOND else 300 * SECOND;
                    var recent := Recent(Full(log, p.pid), i.now, window);
                    && recent != []
                    && e.detail == (if e.detail.runaway then Cpu(CpuMean(recent), 3.0 * t.value, 60 * SECOND, true)
                                    else Cpu(CpuMean(recent), t.value, 300 * SECOND, false))))
  {
    hide RunState, Log, InTime, StatsMap, Recent, Full, CpuMean, HeldMean, HeldBytes, ToldAt, CpuVerdict, MemoryVerdict,
         FromVerdict, ForProcess, AppsEvaluated;
    j := EventSource(inputs, e);
    var i, st := inputs[|inputs| - 1], RunState(inputs);
    var p := i.snap.processes.value[j];
    StatsNow(inputs, j);
    CpuFigures(p, StatsMap(st.fast, i.now), StatsMap(st.slow, i.now), i.a, e);
    AcuteFirst(p, StatsMap(st.fast, i.now), StatsMap(st.slow, i.now), i.a, e);
  }

  lemma AcuteFirst(p: Process, fast: map<Pid, Stats>, slow: map<Pid, Stats>, a: Active, e: Event)
    requires FromVerdict(CpuVerdict(p, fast, slow, a), e) && e.detail.Cpu?
    ensures ForProcess(a.cpu, p.name).Some? && p.pid in fast
    ensures e.detail.runaway <==>
              fast[p.pid].span >= MIN_SPAN && fast[p.pid].cpuAvg >= 3.0 * ForProcess(a.cpu, p.name).value
  {
    hide ForProcess;
  }

  /** A memory event says the five-minute mean in whole bytes and as a percentage of all memory,
      and the bar, in bytes and as such a percentage. */
  predicate SaysMemory(d: Detail, mean: real, bar: nat, total: nat) {
    && total > 0
    && d == Memory(Whole(mean), mean / total as real * 100.0, bar, bar as real / total as real * 100.0, 300 * SECOND)
  }

  lemma DetailSays(s: Stats, bar: nat, total: nat)
    requires total > 0
    ensures SaysMemory(MemoryDetail(s, bar, total), HeldBytes(s), bar, total)
  {
    hide HeldBytes;
    AsU64IsWhole(HeldBytes(s));
  }

  lemma MemoryVerdictSays(p: Process, fast: map<Pid, Stats>, slow: map<Pid, Stats>, a: Active, total: nat, e: Event)
    requires FromVerdict(MemoryVerdict(p, fast, slow, a, total), e)
    ensures p.pid in slow && MemoryBar(a, p.name, total).Some?
    ensures SaysMemory(e.detail, HeldBytes(slow[p.pid]), MemoryBar(a, p.name, total).value, total)
  {
    hide MemoryBar, HeldBytes, AsU64, MemoryDetail, SaysMemory;
    DetailSays(slow[p.pid], MemoryBar(a, p.name, total).value, total);
  }

  lemma AppVerdictSays(g: Group, stats: map<Pid, Stats>, a: Active, total: nat, e: Event)
    requires e.Usage? && FromVerdict(if e.detail.Cpu? then AppCpuVerdict(g, stats, a)
                                     else AppMemoryVerdict(g, stats, a, total), e)
    ensures g.root in stats && e.subject == OfApp(g.root, g.name, g.count)
    ensures e.detail.Cpu? ==>
              ForProcess(a.appCpu, g.name).Some?
              && e.detail == Cpu(stats[g.root].cpuAvg, ForProcess(a.appCpu, g.name).value, 300 * SECOND, false)
    ensures e.detail.Memory? ==>
              AppMemoryBar(a, g.name, total).Some?
              && SaysMemory(e.detail, HeldBytes(stats[g.root]), AppMemoryBar(a, g.name, total).value, total)
  {
    hide AppMemoryBar, HeldBytes, AsU64, MemoryDetail, SaysMemory, ForProcess;
    if e.detail.Memory? { DetailSays(stats[g.root], AppMemoryBar(a, g.name, total).value, total); }
  }

  lemma ProcessMemorySays(inputs: seq<Input>, e: Event) returns (j: nat)
    requires inputs != [] && InTime(inputs)
    requires e in ToldAt(inputs) && e.Usage? && e.subject.OfProcess? && e.detail.Memory?
    ensures var i, total := inputs[|inputs| - 1], inputs[|inputs| - 1].snap.totalMemory;
            && i.snap.processes.Some? && j < |i.snap.processes.value|
            && (var p := i.snap.processes.value[j];
                var bar, recent := MemoryBar(i.a, p.name, total), Recent(Full(Log(inputs), p.pid), i.now, 300 * SECOND);
                && e.subject == OfProcess(p.pid, p.name) && bar.Some? && recent != []
                && SaysMemory(e.detail, HeldMean(recent), bar.value, total))
  {
    hide RunState, Log, InTime, StatsMap, Recent, Full, CpuMean, HeldMean, HeldBytes, ToldAt, CpuVerdict, MemoryVerdict,
         FromVerdict, MemoryBar, SaysMemory, AppsEvaluated;
    j := EventSource(inputs, e);
    var i, st := inputs[|inputs| - 1], RunState(inputs);
    var p := i.snap.processes.value[j];
    StatsNow(inputs, j);
    MemoryFigures(p, StatsMap(st.fast, i.now), StatsMap(st.slow, i.now), i.a, i.snap.totalMemory, e);
    MemoryVerdictSays(p, StatsMap(st.fast, i.now), StatsMap(st.slow, i.now), i.a, i.snap.totalMemory, e);
  }

  /** An event about an application names its root, its name and its processes, and says the
      five-minute mean of its totals against what is in force. */
  lemma AppEventSays(inputs: seq<Input>, e: Event) returns (j: nat)
    requires inputs != [] && InTime(inputs)
    requires e in ToldAt(inputs) && e.Usage? && e.subject.OfApp?
    ensures var i, total := inputs[|inputs| - 1], inputs[|inputs| - 1].snap.totalMemory;
            && i.snap.groups.Some? && j < |i.snap.groups.value|
            && (var g := i.snap.groups.value[j];
                var t, bar := ForProcess(i.a.appCpu, g.name), AppMemoryBar(i.a, g.name, total);
                var recent := Recent(Full(AppLog(inputs), g.root), i.now, 300 * SECOND);
                && e.subject == OfApp(g.root, g.name, g.count) && recent != []
                && (e.detail.Cpu? ==> t.Some? && e.detail == Cpu(CpuMean(recent), t.value, 300 * SECOND, false))
                && (e.detail.Memory? ==> bar.Some? && SaysMemory(e.detail, HeldMean(recent), bar.value, total)))
  {
    hide RunState, AppLog, InTime, StatsMap, Recent, Full, CpuMean, HeldMean, HeldBytes, ToldAt, AppCpuVerdict,
         AppMemoryVerdict, FromVerdict, AppMemoryBar, SaysMemory, ForProcess;
    j := EventSource(inputs, e);
    var i, st := inputs[|inputs| - 1], RunState(inputs);
    AppStatsNow(inputs, j);
    AppVerdictSays(i.snap.groups.value[j], StatsMap(st.apps, i.now), i.a, i.snap.totalMemory, e);
  }

  // ---------------------------------------------------------------- the order of events

  function Place(e: Event): nat {
    match e
    case Volume(_) => 0
    case System(_) => 1
    case Usage(subject, _, _) => if subject.OfApp? then 2 else 3
  }

  lemma AppsBeforeProcesses(st: State, book: Ep.Book, i: Input)
    ensures forall e :: e in AppEvents(st, i.now, i.snap, i.a) ==> Place(e) == 2
    ensures forall e :: e in ProcessEvents(st, book, i.now, i.snap, i.a) ==> Place(e) == 3
  {
    hide EventsOf, AppVerdicts, ProcessVerdicts, StatsMap, AppsAfter, WindowAfter, Ep.Acted, FromVerdict;
    forall e | e in AppEvents(st, i.now, i.snap, i.a) ensures Place(e) == 2 {
      var stats := StatsMap(AppsAfter(st, i.now, i.snap, i.a), i.now);
      var j := AmongApps(
        i.snap.groups.value, stats, i.a, i.snap.totalMemory, Ep.Acted(st.book, Ep.Apps(stats.Keys)), i.now, e);
    }
    forall e | e in ProcessEvents(st, book, i.now, i.snap, i.a) ensures Place(e) == 3 {
      var fast := StatsMap(WindowAfter(st.fast, P.WINDOW, i.now, i.snap), i.now);
      var slow := StatsMap(WindowAfter(st.slow, P.SLOW_WINDOW, i.now, i.snap), i.now);
      var j := AmongProcesses(
        i.snap.processes.value, fast, slow, i.a, i.snap.totalMemory, Ep.Acted(book, Ep.Processes(fast.Keys)), i.now, e);
    }
  }

  /** An evaluation tells of disks first, then of memory pressure, then of applications, then of
      processes. */
  lemma ToldInOrder(inputs: seq<Input>)
    requires inputs != []
    ensures forall m, n :: 0 <= m < n < |ToldAt(inputs)| ==> Place(ToldAt(inputs)[m]) <= Place(ToldAt(inputs)[n])
  {
    hide RunState, AppEvents, ProcessEvents, AppActs, P.PressureStep, Ep.ActAll;
    var i, st := inputs[|inputs| - 1], RunState(inputs[..|inputs| - 1]);
    var book := Ep.ActAll(st.book, AppActs(st, i.now, i.snap, i.a));
    AppsBeforeProcesses(st, book, i);
    var disks := Volumes(D.AlertAll(st.disarmed, D.RoundOf(i.snap.disks, i.a.disk)));
    var pressure, apps := PressureEvents(st, i.now, i.snap, i.a), AppEvents(st, i.now, i.snap, i.a);
    var processes := ProcessEvents(st, book, i.now, i.snap, i.a);
    InPlace(disks, pressure, apps, processes);
  }

  lemma InPlace(a: seq<Event>, b: seq<Event>, c: seq<Event>, d: seq<Event>)
    requires forall e :: e in a ==> Place(e) == 0
    requires forall e :: e in b ==> Place(e) == 1
    requires forall e :: e in c ==> Place(e) == 2
    requires forall e :: e in d ==> Place(e) == 3
    ensures var all := a + b + c + d; forall m, n :: 0 <= m < n < |all| ==> Place(all[m]) <= Place(all[n])
  {
    hide Place;
    var all := a + b + c + d;
    forall m | 0 <= m < |all|
      ensures Place(all[m])
           == if m < |a| then 0 else if m < |a| + |b| then 1 else if m < |a| + |b| + |c| then 2 else 3
    {
      if m < |a| { assert all[m] == a[m]; }
      else if m < |a| + |b| { assert all[m] == b[m - |a|]; }
      else if m < |a| + |b| + |c| { assert all[m] == c[m - |a| - |b|]; }
      else { assert all[m] == d[m - |a| - |b| - |c|]; }
    }
  }
}
