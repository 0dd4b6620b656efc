/** The alert engine over whole runs: any snapshots, any thresholds at each step. */
module EngineRuns {
  import opened Bytes
  import opened Collections
  import opened Matching
  import opened ActiveThresholds
  import opened Rolling
  import Ep = Episodes
  import P = Pressure
  import opened Engine

  datatype Input = Input(now: nat, snap: Snapshot, a: Active)

  function RunState(inputs: seq<Input>): State {
    if inputs == [] then FRESH
    else
      var i := inputs[|inputs| - 1];
      Next(RunState(inputs[..|inputs| - 1]), i.now, i.snap, i.a)
  }

  /** What the last evaluation of a run told the user. */
  function ToldAt(inputs: seq<Input>): seq<Event>
    requires inputs != []
  {
    var i := inputs[|inputs| - 1];
    Told(RunState(inputs[..|inputs| - 1]), i.now, i.snap, i.a)
  }

  predicate InTime(inputs: seq<Input>) {
    Ascending(inputs, (i: Input) => i.now)
  }

  // ---------------------------------------------------------------- the windows of a run

  /** The process lists that were evaluated. */
  function Log(inputs: seq<Input>): seq<Observation> {
    if inputs == [] then []
    else
      var i := inputs[|inputs| - 1];
      Log(inputs[..|inputs| - 1])
      + match i.snap.processes case Some(ps) => [Observation(i.now, ps)] case None => []
  }

  /** The application lists that were evaluated. */
  function AppLog(inputs: seq<Input>): seq<Observation> {
    if inputs == [] then []
    else
      var i := inputs[|inputs| - 1];
      AppLog(inputs[..|inputs| - 1])
      + if AppsEvaluated(i.snap, i.a) then [Observation(i.now, AsProcesses(i.snap.groups.value))] else []
  }

  lemma RunNext(window: nat, log: seq<Observation>, o: Observation)
    ensures Run(window, log + [o]) == Recorded(Run(window, log), window, o.at, o.processes)
    ensures Run(window, log + []) == Run(window, log)
  {
    assert (log + [o])[..|log|] == log;
    assert log + [] == log;
  }

  /** The engine's windows are those of the lists it evaluated. */
  lemma {:induction false} WindowsAreLogged(inputs: seq<Input>)
    ensures RunState(inputs).fast == Run(P.WINDOW, Log(inputs))
    ensures RunState(inputs).slow == Run(P.SLOW_WINDOW, Log(inputs))
    ensures RunState(inputs).apps == Run(P.SLOW_WINDOW, AppLog(inputs))
  {
    hide BookAfter, P.PressureStep, Recorded, AsProcesses;
    if inputs == [] {
      assert Run(P.WINDOW, []) == map[] && Run(P.SLOW_WINDOW, []) == map[];
    } else {
      var before, i := inputs[..|inputs| - 1], inputs[|inputs| - 1];
      WindowsAreLogged(before);
      hide Run;
      var o := Observation(i.now, match i.snap.processes case Some(ps) => ps case None => []);
      RunNext(P.WINDOW, Log(before), o);
      RunNext(P.SLOW_WINDOW, Log(before), o);
      var g := Observation(i.now, match i.snap.groups case Some(gs) => AsProcesses(gs) case None => []);
      RunNext(P.SLOW_WINDOW, AppLog(before), g);
    }
  }

  lemma {:induction false} LogsInOrder(inputs: seq<Input>)
    requires InTime(inputs)
    ensures InOrder(Log(inputs)) && InOrder(AppLog(inputs))
    ensures forall j :: 0 <= j < |Log(inputs)| ==> inputs != [] && Log(inputs)[j].at <= inputs[|inputs| - 1].now
    ensures forall j :: 0 <= j < |AppLog(inputs)| ==> inputs != [] && AppLog(inputs)[j].at <= inputs[|inputs| - 1].now
  {
    if inputs != [] {
      LogsInOrder(inputs[..|inputs| - 1]);
    }
  }

  // ---------------------------------------------------------------- alerts are true

  predicate FromVerdict(v: Verdict, e: Event) {
    v.Above? && e.Usage? && e.subject == v.subject && e.detail == v.detail
  }

  /** An event comes from a verdict over its bar. */
  lemma {:induction false} EventHasVerdict(vs: seq<Verdict>, book: Ep.Book, now: nat, cooldown: nat, e: Event)
      returns (i: nat)
    requires e in EventsOf(vs, book, now, cooldown)
    ensures i < |vs| && FromVerdict(vs[i], e)
  {
    var last := |vs| - 1;
    if e in EventsOf(vs[..last], book, now, cooldown) {
      i := EventHasVerdict(vs[..last], book, now, cooldown, e);
    } else {
      i := last;
    }
  }

  lemma ProcessKinds(p: Process, fast: map<Pid, Stats>, slow: map<Pid, Stats>, a: Active, total: nat, e: Event)
    ensures FromVerdict(CpuVerdict(p, fast, slow, a), e) ==> e.subject.OfProcess? && e.detail.Cpu?
    ensures FromVerdict(MemoryVerdict(p, fast, slow, a, total), e) ==> e.subject.OfProcess? && e.detail.Memory?
  {
    hide ForProcess, MemoryBar, AsU64;
  }

  lemma AppKinds(g: Group, stats: map<Pid, Stats>, a: Active, total: nat, e: Event)
    ensures FromVerdict(AppCpuVerdict(g, stats, a), e) ==> e.subject.OfApp? && e.detail.Cpu?
    ensures FromVerdict(AppMemoryVerdict(g, stats, a, total), e) ==> e.subject.OfApp? && e.detail.Memory?
  {
    hide ForProcess, AppMemoryBar, AsU64;
  }

  lemma AmongProcesses(
      ps: seq<Process>, fast: map<Pid, Stats>, slow: map<Pid, Stats>, a: Active, total: nat, book: Ep.Book, now: nat,
      e: Event) returns (j: nat)
    requires e in EventsOf(ProcessVerdicts(ps, fast, slow, a, total), book, now, a.cooldown)
    ensures j < |ps| && e.Usage? && e.subject.OfProcess?
    ensures FromVerdict(if e.detail.Cpu? then CpuVerdict(ps[j], fast, slow, a)
                        else MemoryVerdict(ps[j], fast, slow, a, total), e)
  {
    hide EventsOf, CpuVerdict, MemoryVerdict, FromVerdict;
    var n := EventHasVerdict(ProcessVerdicts(ps, fast, slow, a, total), book, now, a.cooldown, e);
    j := n / 2;
    ProcessKinds(ps[j], fast, slow, a, total, e);
    FromUsage(ProcessVerdicts(ps, fast, slow, a, total)[n], e);
  }

  lemma AmongApps(
      gs: seq<Group>, stats: map<Pid, Stats>, a: Active, total: nat, book: Ep.Book, now: nat, e: Event)
      returns (j: nat)
    requires e in EventsOf(AppVerdicts(gs, stats, a, total), book, now, a.cooldown)
    ensures j < |gs| && e.Usage? && e.subject.OfApp?
    ensures FromVerdict(if e.detail.Cpu? then AppCpuVerdict(gs[j], stats, a)
                        else AppMemoryVerdict(gs[j], stats, a, total), e)
  {
    hide EventsOf, AppCpuVerdict, AppMemoryVerdict, FromVerdict;
    var n := EventHasVerdict(AppVerdicts(gs, stats, a, total), book, now, a.cooldown, e);
    j := n / 2;
    AppKinds(gs[j], stats, a, total, e);
    FromUsage(AppVerdicts(gs, stats, a, total)[n], e);
  }

  lemma FromUsage(v: Verdict, e: Event)
    ensures FromVerdict(v, e) ==> e.Usage?
  {
  }

  /** Usage events of an evaluation are those of its two passes. */
  lemma UsageSources(st: State, i: Input, e: Event)
    requires e in Told(st, i.now, i.snap, i.a) && e.Usage?
    ensures e in AppEvents(st, i.now, i.snap, i.a)
         || e in ProcessEvents(st, Ep.ActAll(st.book, AppActs(st, i.now, i.snap, i.a)), i.now, i.snap, i.a)
  {
    hide AppEvents, ProcessEvents, AppActs, P.PressureStep, Ep.ActAll;
  }

  /** An event about a process or an application comes from the verdict on one of them. */
  lemma EventSource(inputs: seq<Input>, e: Event) returns (j: nat)
    requires inputs != [] && e in ToldAt(inputs) && e.Usage?
    ensures var i, st := inputs[|inputs| - 1], RunState(inputs);
            && (e.subject.OfProcess? ==>
                  (i.snap.processes.Some? && j < |i.snap.processes.value|
                   && (var p := i.snap.processes.value[j];
                       var fast, slow := StatsMap(st.fast, i.now), StatsMap(st.slow, i.now);
                       FromVerdict(if e.detail.Cpu? then CpuVerdict(p, fast, slow, i.a)
                                   else MemoryVerdict(p, fast, slow, i.a, i.snap.totalMemory), e))))
            && (e.subject.OfApp? ==>
                  (AppsEvaluated(i.snap, i.a) && j < |i.snap.groups.value|
                   && (var g, stats := i.snap.groups.value[j], StatsMap(st.apps, i.now);
                       FromVerdict(if e.detail.Cpu? then AppCpuVerdict(g, stats, i.a)
                                   else AppMemoryVerdict(g, stats, i.a, i.snap.totalMemory), e))))
  {
    var i, was := inputs[|inputs| - 1], RunState(inputs[..|inputs| - 1]);
    var st := RunState(inputs);
    hide BookAfter, P.PressureStep, Recorded, StatsMap, AppActs, ProcessVerdicts, AppVerdicts, EventsOf, FromVerdict,
         CpuVerdict, MemoryVerdict, AppCpuVerdict, AppMemoryVerdict, Told, Ep.ActAll, Ep.Acted;
    UsageSources(was, i, e);
    var book := Ep.ActAll(was.book, AppActs(was, i.now, i.snap, i.a));
    if e in AppEvents(was, i.now, i.snap, i.a) {
      var stats := StatsMap(st.apps, i.now);
      j := AmongApps(
        i.snap.groups.value, stats, i.a, i.snap.totalMemory, Ep.Acted(was.book, Ep.Apps(stats.Keys)), i.now, e);
    } else {
      var fast, slow := StatsMap(st.fast, i.now), StatsMap(st.slow, i.now);
      j := AmongProcesses(
        i.snap.processes.value, fast, slow, i.a, i.snap.totalMemory, Ep.Acted(book, Ep.Processes(fast.Keys)), i.now, e);
    }
  }

  /** `pid` was in every one of the lists evaluated over the last `span`, and that is how long. */
  predicate PresentFor(log: seq<Observation>, pid: Pid, now: nat, span: nat) {
    exists k :: 0 <= k < |log| && log[k].at + span <= now
      && forall j :: k <= j < |log| ==> pid in Pids(log[j].processes)
  }

  /** The statistics of a window, read off everything that was ever observed. */
  lemma WindowMeans(window: nat, log: seq<Observation>, pid: Pid, span: nat)
    requires log != [] && InOrder(log) && span > 0
    requires var stats := StatsMap(Run(window, log), log[|log| - 1].at); pid in stats && stats[pid].span >= span
    ensures var now := log[|log| - 1].at;
            var recent := Recent(Full(log, pid), now, window);
            && PresentFor(log, pid, now, span)
            && recent != [] && StatsMap(Run(window, log), now)[pid] == StatsOf(recent, now)
  {
    StatsExact(window, log, pid);
    var k := SpanMeansPresence(window, log, pid, span);
  }

  lemma LogEndsNow(inputs: seq<Input>)
    requires inputs != []
    ensures inputs[|inputs| - 1].snap.processes.Some? ==>
              Log(inputs) != [] && Log(inputs)[|Log(inputs)| - 1].at == inputs[|inputs| - 1].now
    ensures AppsEvaluated(inputs[|inputs| - 1].snap, inputs[|inputs| - 1].a) ==>
              AppLog(inputs) != [] && AppLog(inputs)[|AppLog(inputs)| - 1].at == inputs[|inputs| - 1].now
  {
  }

  function CpuMean(samples: seq<Sample>): real
    requires samples != []
  {
    CpuTotal(samples) / |samples| as real
  }

  /** The footprints where there are any, else the resident sizes. */
  function HeldMean(samples: seq<Sample>): real
    requires samples != []
  {
    var footprints := Footprints(samples);
    if footprints != [] then Total(footprints) as real / |footprints| as real
    else MemoryTotal(samples) as real / |samples| as real
  }

  lemma HeldIsMean(samples: seq<Sample>, now: nat)
    requires samples != []
    ensures HeldBytes(StatsOf(samples, now)) == HeldMean(samples)
  {
  }

  /** What a window that spans `span` says about `pid`. */
  predicate Meant(h: History, window: nat, log: seq<Observation>, pid: Pid, now: nat, span: nat) {
    var stats, recent := StatsMap(h, now), Recent(Full(log, pid), now, window);
    && PresentFor(log, pid, now, span)
    && pid in stats && recent != [] && stats[pid] == StatsOf(recent, now)
  }

  lemma FastMeans(inputs: seq<Input>, pid: Pid)
    requires inputs != [] && InTime(inputs) && inputs[|inputs| - 1].snap.processes.Some?
    ensures var now, fast := inputs[|inputs| - 1].now, RunState(inputs).fast;
            pid in StatsMap(fast, now) && StatsMap(fast, now)[pid].span >= MIN_SPAN ==>
              Meant(fast, P.WINDOW, Log(inputs), pid, now, MIN_SPAN)
  {
    hide RunState, Log, AppLog, Run, InTime, InOrder, StatsMap, Meant, AppsEvaluated;
    WindowsAreLogged(inputs);
    LogsInOrder(inputs);
    LogEndsNow(inputs);
    MeantIf(P.WINDOW, Log(inputs), pid, MIN_SPAN);
  }

  lemma SlowMeans(inputs: seq<Input>, pid: Pid)
    requires inputs != [] && InTime(inputs) && inputs[|inputs| - 1].snap.processes.Some?
    ensures var now, slow := inputs[|inputs| - 1].now, RunState(inputs).slow;
            pid in StatsMap(slow, now) && StatsMap(slow, now)[pid].span >= SLOW_MIN_SPAN ==>
              Meant(slow, P.SLOW_WINDOW, Log(inputs), pid, now, SLOW_MIN_SPAN)
  {
    hide RunState, Log, AppLog, Run, InTime, InOrder, StatsMap, Meant, AppsEvaluated;
    WindowsAreLogged(inputs);
    LogsInOrder(inputs);
    LogEndsNow(inputs);
    MeantIf(P.SLOW_WINDOW, Log(inputs), pid, SLOW_MIN_SPAN);
  }

  lemma AppsMean(inputs: seq<Input>, pid: Pid)
    requires inputs != [] && InTime(inputs) && AppsEvaluated(inputs[|inputs| - 1].snap, inputs[|inputs| - 1].a)
    ensures var now, apps := inputs[|inputs| - 1].now, RunState(inputs).apps;
            pid in StatsMap(apps, now) && StatsMap(apps, now)[pid].span >= SLOW_MIN_SPAN ==>
              Meant(apps, P.SLOW_WINDOW, AppLog(inputs), pid, now, SLOW_MIN_SPAN)
  {
    hide RunState, Log, AppLog, Run, InTime, InOrder, StatsMap, Meant, AppsEvaluated;
    WindowsAreLogged(inputs);
    LogsInOrder(inputs);
    LogEndsNow(inputs);
    MeantIf(P.SLOW_WINDOW, AppLog(inputs), pid, SLOW_MIN_SPAN);
  }

  lemma MeantIf(window: nat, log: seq<Observation>, pid: Pid, span: nat)
    requires log != [] && InOrder(log) && span > 0
    ensures var h, now := Run(window, log), log[|log| - 1].at;
            pid in StatsMap(h, now) && StatsMap(h, now)[pid].span >= span ==> Meant(h, window, log, pid, now, span)
  {
    hide StatsMap, Run, Recent, Full, PresentFor, StatsOf, InOrder;
    var now := log[|log| - 1].at;
    if pid in StatsMap(Run(window, log), now) && StatsMap(Run(window, log), now)[pid].span >= span {
      WindowMeans(window, log, pid, span);
    }
  }

  lemma MeantFigures(h: History, window: nat, log: seq<Observation>, pid: Pid, now: nat, span: nat)
    requires Meant(h, window, log, pid, now, span)
    ensures var s, recent := StatsMap(h, now)[pid], Recent(Full(log, pid), now, window);
            && PresentFor(log, pid, now, span) && recent != []
            && s.cpuAvg == CpuMean(recent)
            && HeldBytes(s) == HeldMean(recent)
  {
    var recent := Recent(Full(log, pid), now, window);
    HeldIsMean(recent, now);
    hide StatsMap, Recent, Full, PresentFor, CpuTotal, HeldMean, HeldBytes;
  }

  lemma CpuFigures(p: Process, fast: map<Pid, Stats>, slow: map<Pid, Stats>, a: Active, e: Event)
    requires FromVerdict(CpuVerdict(p, fast, slow, a), e)
    ensures e.subject == OfProcess(p.pid, p.name) && e.detail.Cpu? && ForProcess(a.cpu, p.name).Some?
    ensures var t := ForProcess(a.cpu, p.name).value;
            if e.detail.runaway then
              && p.pid in fast && fast[p.pid].span >= MIN_SPAN && fast[p.pid].cpuAvg >= 3.0 * t
              && e.detail == Cpu(fast[p.pid].cpuAvg, 3.0 * t, P.WINDOW, true)
            else
              && p.pid in slow && slow[p.pid].span >= SLOW_MIN_SPAN && slow[p.pid].cpuAvg >= t
              && e.detail == Cpu(slow[p.pid].cpuAvg, t, P.SLOW_WINDOW, false)
  {
    hide ForProcess;
  }

  lemma MemoryFigures(p: Process, fast: map<Pid, Stats>, slow: map<Pid, Stats>, a: Active, total: nat, e: Event)
    requires FromVerdict(MemoryVerdict(p, fast, slow, a, total), e)
    ensures e.subject == OfProcess(p.pid, p.name) && e.detail.Memory? && total > 0
    ensures p.pid in slow && slow[p.pid].span >= SLOW_MIN_SPAN
    ensures MemoryBar(a, p.name, total) == Some(e.detail.bar)
    ensures e.detail.avgBytes == AsU64(HeldBytes(slow[p.pid])) >= e.detail.bar
  {
    hide MemoryBar, AsU64, HeldBytes, MemShare;
  }

  lemma NameOf(g: Group)
    ensures SubjectOf(g).appName == g.name
  {
  }

  lemma AppFigures(g: Group, stats: map<Pid, Stats>, a: Active, total: nat, e: Event)
    requires e.Usage? && FromVerdict(if e.detail.Cpu? then AppCpuVerdict(g, stats, a)
                                     else AppMemoryVerdict(g, stats, a, total), e)
    ensures e.subject == SubjectOf(g) && g.root in stats && stats[g.root].span >= SLOW_MIN_SPAN
    ensures e.detail.Cpu? ==>
              (e.detail.avg == stats[g.root].cpuAvg >= e.detail.threshold
               && ForProcess(a.appCpu, g.name) == Some(e.detail.threshold))
    ensures e.detail.Memory? ==>
              (e.detail.avgBytes == AsU64(HeldBytes(stats[g.root])) >= e.detail.bar
               && AppMemoryBar(a, g.name, total) == Some(e.detail.bar))
  {
    hide AppMemoryBar, AsU64, HeldBytes, MemShare, ForProcess;
  }

  /** Every CPU event about a process: the process was in every list evaluated over the last
      50 seconds (runaway) or 250 seconds, the average told is the mean of exactly its samples
      since its last absence that are no older than one or five minutes, and that average is
      at or above the threshold told, which is the one in force for its name. */
  lemma CpuAlertsAreTrue(inputs: seq<Input>, e: Event) returns (j: nat)
    requires inputs != [] && InTime(inputs)
    requires e in ToldAt(inputs) && e.Usage? && e.subject.OfProcess? && e.detail.Cpu?
    ensures var i, pid, runaway := inputs[|inputs| - 1], e.subject.pid, e.detail.runaway;
            var window := if runaway then 60 * SECOND else 300 * SECOND;
            var recent := Recent(Full(Log(inputs), pid), i.now, window);
            && PresentFor(Log(inputs), pid, i.now, if runaway then 50 * SECOND else 250 * SECOND)
            && e.detail.window == window
            && recent != [] && e.detail.avg == CpuMean(recent)
            && e.detail.avg >= e.detail.threshold
            && i.snap.processes.Some? && j < |i.snap.processes.value|
            && i.snap.processes.value[j].pid == pid && i.snap.processes.value[j].name == e.subject.name
            && (var t := ForProcess(i.a.cpu, e.subject.name);
                t.Some? && e.detail.threshold == if runaway then 3.0 * t.value else t.value)
  {
    j := EventSource(inputs, e);
    hide *;
    var i, st, pid := inputs[|inputs| - 1], RunState(inputs), e.subject.pid;
    CpuFigures(i.snap.processes.value[j], StatsMap(st.fast, i.now), StatsMap(st.slow, i.now), i.a, e);
    if e.detail.runaway {
      FastMeans(inputs, pid);
      MeantFigures(st.fast, P.WINDOW, Log(inputs), pid, i.now, MIN_SPAN);
    } else {
      SlowMeans(inputs, pid);
      MeantFigures(st.slow, P.SLOW_WINDOW, Log(inputs), pid, i.now, SLOW_MIN_SPAN);
    }
  }

  /** Every memory event about a process: five-minute mean, present over 250 seconds, at or
      above the bar in force for its name. */
  lemma MemoryAlertsAreTrue(inputs: seq<Input>, e: Event) returns (j: nat)
    requires inputs != [] && InTime(inputs)
    requires e in ToldAt(inputs) && e.Usage? && e.subject.OfProcess? && e.detail.Memory?
    ensures var i, pid := inputs[|inputs| - 1], e.subject.pid;
            var recent := Recent(Full(Log(inputs), pid), i.now, 300 * SECOND);
            && PresentFor(Log(inputs), pid, i.now, 250 * SECOND)
            && recent != [] && e.detail.avgBytes == AsU64(HeldMean(recent))
            && e.detail.avgBytes >= e.detail.bar
            && i.snap.totalMemory > 0
            && i.snap.processes.Some? && j < |i.snap.processes.value|
            && i.snap.processes.value[j].pid == pid && i.snap.processes.value[j].name == e.subject.name
            && MemoryBar(i.a, e.subject.name, i.snap.totalMemory) == Some(e.detail.bar)
  {
    j := EventSource(inputs, e);
    hide *;
    var i, st, pid := inputs[|inputs| - 1], RunState(inputs), e.subject.pid;
    MemoryFigures(
      i.snap.processes.value[j], StatsMap(st.fast, i.now), StatsMap(st.slow, i.now), i.a, i.snap.totalMemory, e);
    SlowMeans(inputs, pid);
    MeantFigures(st.slow, P.SLOW_WINDOW, Log(inputs), pid, i.now, SLOW_MIN_SPAN);
  }

  /** Every event about an application: its root was in every list evaluated over the last 250
      seconds, and the figure told is the five-minute mean, at or above what is in force. */
  lemma AppAlertsAreTrue(inputs: seq<Input>, e: Event) returns (j: nat)
    requires inputs != [] && InTime(inputs)
    requires e in ToldAt(inputs) && e.Usage? && e.subject.OfApp?
    ensures var i, root := inputs[|inputs| - 1], e.subject.root;
            var recent := Recent(Full(AppLog(inputs), root), i.now, 300 * SECOND);
            && PresentFor(AppLog(inputs), root, i.now, 250 * SECOND)
            && recent != []
            && i.snap.groups.Some? && j < |i.snap.groups.value|
            && e.subject == SubjectOf(i.snap.groups.value[j])
            && (e.detail.Cpu? ==>
                  (e.detail.avg == CpuMean(recent)
                   && e.detail.avg >= e.detail.threshold
                   && ForProcess(i.a.appCpu, e.subject.appName) == Some(e.detail.threshold)))
            && (e.detail.Memory? ==>
                  (e.detail.avgBytes == AsU64(HeldMean(recent))
                   && e.detail.avgBytes >= e.detail.bar
                   && AppMemoryBar(i.a, e.subject.appName, i.snap.totalMemory) == Some(e.detail.bar)))
  {
    j := EventSource(inputs, e);
    var i, st, root := inputs[|inputs| - 1], RunState(inputs), e.subject.root;
    assert i.snap.groups.Some? && i.snap.groups.value[j].root == root by {
      AppFigures(i.snap.groups.value[j], StatsMap(st.apps, i.now), i.a, i.snap.totalMemory, e);
    }
    hide *;
    AppFigures(i.snap.groups.value[j], StatsMap(st.apps, i.now), i.a, i.snap.totalMemory, e);
    AppsMean(inputs, root);
    MeantFigures(st.apps, P.SLOW_WINDOW, AppLog(inputs), root, i.now, SLOW_MIN_SPAN);
    NameOf(i.snap.groups.value[j]);
  }

  // ---------------------------------------------------------------- and nothing over its bar is missed

  /** The statistics of `pid` are those of its samples in the last `window`. */
  predicate StatsAre(stats: map<Pid, Stats>, log: seq<Observation>, pid: Pid, now: nat, window: nat) {
    var recent := Recent(Full(log, pid), now, window);
    && pid in stats && recent != []
    && stats[pid].span == Since(now, recent[0].at)
    && stats[pid].cpuAvg == CpuMean(recent) && HeldBytes(stats[pid]) == HeldMean(recent)
  }

  lemma RecentStats(window: nat, log: seq<Observation>, pid: Pid)
    requires log != [] && InOrder(log) && pid in Pids(log[|log| - 1].processes)
    ensures var now := log[|log| - 1].at; StatsAre(StatsMap(Run(window, log), now), log, pid, now, window)
  {
    StatsExact(window, log, pid);
    var now := log[|log| - 1].at;
    HeldIsMean(Recent(Full(log, pid), now, window), now);
    hide StatsMap, Run, Recent, Full, CpuTotal, Footprints, MemoryTotal, Total, HeldMean, HeldBytes, InOrder;
  }

  /** Over the last `window`, `pid` was sampled for at least `span` and its mean CPU is at least
      `level`. */
  predicate RunsHot(log: seq<Observation>, pid: Pid, now: nat, window: nat, span: nat, level: real) {
    var recent := Recent(Full(log, pid), now, window);
    recent != [] && Since(now, recent[0].at) >= span && CpuMean(recent) >= level
  }

  lemma StatsNow(inputs: seq<Input>, j: nat)
    requires inputs != [] && InTime(inputs)
    requires var ps := inputs[|inputs| - 1].snap.processes; ps.Some? && j < |ps.value|
    ensures var i, st := inputs[|inputs| - 1], RunState(inputs);
            var pid, log := i.snap.processes.value[j].pid, Log(inputs);
            && StatsAre(StatsMap(st.fast, i.now), log, pid, i.now, P.WINDOW)
            && StatsAre(StatsMap(st.slow, i.now), log, pid, i.now, P.SLOW_WINDOW)
  {
    hide RunState, Log, AppLog, Run, InTime, InOrder, StatsMap, StatsAre;
    LogLast(inputs);
    WindowsAreLogged(inputs);
    LogsInOrder(inputs);
    var log, pid := Log(inputs), inputs[|inputs| - 1].snap.processes.value[j].pid;
    RecentStats(P.WINDOW, log, pid);
    RecentStats(P.SLOW_WINDOW, log, pid);
  }

  lemma LogLast(inputs: seq<Input>)
    requires inputs != [] && inputs[|inputs| - 1].snap.processes.Some?
    ensures var i, log := inputs[|inputs| - 1], Log(inputs);
            log != [] && log[|log| - 1] == Observation(i.now, i.snap.processes.value)
  {
  }

  lemma CpuCases(p: Process, fast: map<Pid, Stats>, slow: map<Pid, Stats>, a: Active)
    requires p.pid in fast && p.pid in slow
    ensures var v, t := CpuVerdict(p, fast, slow, a), ForProcess(a.cpu, p.name);
            && (v.Unjudged? <==> t.None?)
            && (v.Above? <==>
                  (t.Some? && ((fast[p.pid].span >= MIN_SPAN && fast[p.pid].cpuAvg >= 3.0 * t.value)
                               || (slow[p.pid].span >= SLOW_MIN_SPAN && slow[p.pid].cpuAvg >= t.value))))
            && (!v.Unjudged? ==> v.key == Ep.Key(p.pid, Ep.CpuKind))
            && (v.Above? ==> v.subject == OfProcess(p.pid, p.name) && v.detail.Cpu?)
  {
    hide ForProcess;
  }

  /** A process is judged over its CPU bar exactly when its samples since its last absence say
      so: three times its threshold over a minute, or the threshold over five. */
  lemma CpuJudgedExactly(inputs: seq<Input>, j: nat)
    requires inputs != [] && InTime(inputs)
    requires var ps := inputs[|inputs| - 1].snap.processes; ps.Some? && j < |ps.value|
    ensures var i, st := inputs[|inputs| - 1], RunState(inputs);
            var p, log := i.snap.processes.value[j], Log(inputs);
            var v := CpuVerdict(p, StatsMap(st.fast, i.now), StatsMap(st.slow, i.now), i.a);
            var t := ForProcess(i.a.cpu, p.name);
            && (v.Unjudged? <==> t.None?)
            && (v.Above? <==>
                  (t.Some? && (RunsHot(log, p.pid, i.now, 60 * SECOND, 50 * SECOND, 3.0 * t.value)
                               || RunsHot(log, p.pid, i.now, 300 * SECOND, 250 * SECOND, t.value))))
            && (!v.Unjudged? ==> v.key == Ep.Key(p.pid, Ep.CpuKind))
  {
    hide RunState, Log, Recent, Full, InTime, StatsMap, CpuMean, HeldMean, HeldBytes, ForProcess, CpuVerdict;
    StatsNow(inputs, j);
    var i, st := inputs[|inputs| - 1], RunState(inputs);
    CpuCases(i.snap.processes.value[j], StatsMap(st.fast, i.now), StatsMap(st.slow, i.now), i.a);
  }

  lemma MemoryCases(p: Process, fast: map<Pid, Stats>, slow: map<Pid, Stats>, a: Active, total: nat)
    requires p.pid in fast && p.pid in slow
    ensures var v, bar := MemoryVerdict(p, fast, slow, a, total), MemoryBar(a, p.name, total);
            && (v.Unjudged? <==> bar.None? || total == 0 || slow[p.pid].span < SLOW_MIN_SPAN)
            && (v.Above? <==> !v.Unjudged? && AsU64(HeldBytes(slow[p.pid])) >= bar.value)
            && (!v.Unjudged? ==> v.key == Ep.Key(p.pid, Ep.MemoryKind))
  {
    hide MemoryBar, AsU64, HeldBytes, MemShare;
  }

  /** The same for memory: the five-minute mean against the bar, once there are 250 seconds. */
  lemma MemoryJudgedExactly(inputs: seq<Input>, j: nat)
    requires inputs != [] && InTime(inputs)
    requires var ps := inputs[|inputs| - 1].snap.processes; ps.Some? && j < |ps.value|
    ensures var i, st := inputs[|inputs| - 1], RunState(inputs);
            var p, log, total := i.snap.processes.value[j], Log(inputs), i.snap.totalMemory;
            var v := MemoryVerdict(p, StatsMap(st.fast, i.now), StatsMap(st.slow, i.now), i.a, total);
            var bar, recent := MemoryBar(i.a, p.name, total), Recent(Full(log, p.pid), i.now, 300 * SECOND);
            && recent != []
            && (v.Unjudged? <==> bar.None? || total == 0 || Since(i.now, recent[0].at) < 250 * SECOND)
            && (v.Above? <==> !v.Unjudged? && AsU64(HeldMean(recent)) >= bar.value)
            && (!v.Unjudged? ==> v.key == Ep.Key(p.pid, Ep.MemoryKind))
  {
    hide RunState, Log, Recent, Full, InTime, StatsMap, CpuMean, HeldMean, HeldBytes, MemoryBar, AsU64, MemoryVerdict;
    StatsNow(inputs, j);
    var i, st := inputs[|inputs| - 1], RunState(inputs);
    MemoryCases(
      i.snap.processes.value[j], StatsMap(st.fast, i.now), StatsMap(st.slow, i.now), i.a, i.snap.totalMemory);
  }

  lemma AppStatsNow(inputs: seq<Input>, j: nat)
    requires inputs != [] && InTime(inputs)
    requires var i := inputs[|inputs| - 1]; AppsEvaluated(i.snap, i.a) && j < |i.snap.groups.value|
    ensures var i, st := inputs[|inputs| - 1], RunState(inputs);
            StatsAre(StatsMap(st.apps, i.now), AppLog(inputs), i.snap.groups.value[j].root, i.now, P.SLOW_WINDOW)
  {
    AppLogLast(inputs);
    var i := inputs[|inputs| - 1];
    assert AsProcesses(i.snap.groups.value)[j].pid == i.snap.groups.value[j].root;
    hide RunState, Log, AppLog, Run, InTime, InOrder, StatsMap, StatsAre, AppsEvaluated;
    WindowsAreLogged(inputs);
    LogsInOrder(inputs);
    RecentStats(P.SLOW_WINDOW, AppLog(inputs), i.snap.groups.value[j].root);
  }

  lemma AppLogLast(inputs: seq<Input>)
    requires inputs != [] && AppsEvaluated(inputs[|inputs| - 1].snap, inputs[|inputs| - 1].a)
    ensures var i, log := inputs[|inputs| - 1], AppLog(inputs);
            log != [] && log[|log| - 1] == Observation(i.now, AsProcesses(i.snap.groups.value))
  {
  }

  /** Applications are judged over their bars exactly when 250 seconds of their totals are known
      and the five-minute means say so. */
  lemma AppsJudgedExactly(inputs: seq<Input>, j: nat)
    requires inputs != [] && InTime(inputs)
    requires var i := inputs[|inputs| - 1]; AppsEvaluated(i.snap, i.a) && j < |i.snap.groups.value|
    ensures var i, st := inputs[|inputs| - 1], RunState(inputs);
            var g, stats, total := i.snap.groups.value[j], StatsMap(st.apps, i.now), i.snap.totalMemory;
            var recent := Recent(Full(AppLog(inputs), g.root), i.now, 300 * SECOND);
            var cpu, memory := AppCpuVerdict(g, stats, i.a), AppMemoryVerdict(g, stats, i.a, total);
            var t, bar := ForProcess(i.a.appCpu, g.name), AppMemoryBar(i.a, g.name, total);
            && recent != []
            && (cpu.Unjudged? <==> t.None? || Since(i.now, recent[0].at) < 250 * SECOND)
            && (cpu.Above? <==> !cpu.Unjudged? && CpuMean(recent) >= t.value)
            && (memory.Unjudged? <==> bar.None? || total == 0 || Since(i.now, recent[0].at) < 250 * SECOND)
            && (memory.Above? <==> !memory.Unjudged? && AsU64(HeldMean(recent)) >= bar.value)
            && (!cpu.Unjudged? ==> cpu.key == Ep.Key(g.root, Ep.AppCpuKind))
            && (!memory.Unjudged? ==> memory.key == Ep.Key(g.root, Ep.AppMemoryKind))
  {
    hide RunState, AppLog, Recent, Full, InTime, StatsMap, CpuMean, HeldMean, HeldBytes, ForProcess, AppMemoryBar,
         AsU64, MemShare, AppsEvaluated;
    AppStatsNow(inputs, j);
  }

  /** What one verdict raises is among what the pass raises. */
  lemma {:induction false} EventAmongEvents(vs: seq<Verdict>, n: nat, book: Ep.Book, now: nat, cooldown: nat)
    requires n < |vs|
    ensures forall e :: e in EventOf(vs[n], Ep.ActAll(book, ActsOf(vs[..n], now, cooldown)), now, cooldown) ==>
              e in EventsOf(vs, book, now, cooldown)
  {
    hide EventOf, ActsOf, Ep.ActAll;
    var last := |vs| - 1;
    if n < last {
      EventAmongEvents(vs[..last], n, book, now, cooldown);
      assert vs[..last][..n] == vs[..n];
    }
  }

  /** What the engine has done to its book when it comes to the `n`th verdict of the process
      pass of the last evaluation. */
  function ActsBefore(inputs: seq<Input>, n: nat): seq<Ep.Act>
    requires inputs != [] && inputs[|inputs| - 1].snap.processes.Some?
    requires n <= 2 * |inputs[|inputs| - 1].snap.processes.value|
  {
    var i, was := inputs[|inputs| - 1], RunState(inputs[..|inputs| - 1]);
    AppActs(was, i.now, i.snap, i.a)
    + ([Ep.Processes(StatsMap(RunState(inputs).fast, i.now).Keys)]
       + ActsOf(ProcessVerdictsAt(was, i.now, i.snap, i.a)[..n], i.now, i.a.cooldown))
  }

  /** The process pass raises whatever its verdicts raise on the book as it then is. */
  lemma PassRaises(inputs: seq<Input>, n: nat)
    requires inputs != [] && inputs[|inputs| - 1].snap.processes.Some?
    requires n < 2 * |inputs[|inputs| - 1].snap.processes.value|
    ensures var i, was := inputs[|inputs| - 1], RunState(inputs[..|inputs| - 1]);
            var v := ProcessVerdictsAt(was, i.now, i.snap, i.a)[n];
            forall e :: e in EventOf(v, Ep.ActAll(was.book, ActsBefore(inputs, n)), i.now, i.a.cooldown) ==>
              e in ToldAt(inputs)
  {
    var i, was := inputs[|inputs| - 1], RunState(inputs[..|inputs| - 1]);
    var st := RunState(inputs);
    assert st.fast == WindowAfter(was.fast, P.WINDOW, i.now, i.snap);
    var vs := ProcessVerdictsAt(was, i.now, i.snap, i.a);
    var apps := AppActs(was, i.now, i.snap, i.a);
    var drop := [Ep.Processes(StatsMap(st.fast, i.now).Keys)];
    hide RunState, ProcessVerdictsAt, AppActs, AppEvents, StatsMap, ActsOf, EventOf, EventsOf, Ep.ActAll, Ep.Acted,
         WindowAfter, P.PressureStep;
    var book := Ep.ActAll(was.book, apps);
    OneAct(book, drop[0]);
    Ep.ActAllSplit(was.book, apps, drop + ActsOf(vs[..n], i.now, i.a.cooldown));
    Ep.ActAllSplit(book, drop, ActsOf(vs[..n], i.now, i.a.cooldown));
    EventAmongEvents(vs, n, Ep.Acted(book, drop[0]), i.now, i.a.cooldown);
  }

  /** Corollary: a process over its CPU bar, about which nothing has been noted since it was last
      absent, is told of now, by its name. */
  lemma FirstCrossingIsTold(inputs: seq<Input>, j: nat)
    requires inputs != [] && InTime(inputs)
    requires var ps := inputs[|inputs| - 1].snap.processes; ps.Some? && j < |ps.value|
    requires var i := inputs[|inputs| - 1];
             var p, log := i.snap.processes.value[j], Log(inputs);
             var t := ForProcess(i.a.cpu, p.name);
             t.Some? && (RunsHot(log, p.pid, i.now, 60 * SECOND, 50 * SECOND, 3.0 * t.value)
                         || RunsHot(log, p.pid, i.now, 300 * SECOND, 250 * SECOND, t.value))
    requires var before, p := inputs[..|inputs| - 1], inputs[|inputs| - 1].snap.processes.value[j];
             Ep.RunKey(Ep.OpsOf(Before(before, ActsBefore(inputs, 2 * j)), Ep.Key(p.pid, Ep.CpuKind))).notes == []
    ensures var p := inputs[|inputs| - 1].snap.processes.value[j];
            exists e :: e in ToldAt(inputs) && e.Usage? && e.subject == OfProcess(p.pid, p.name)
              && e.detail.Cpu? && e.repeatAfter == None
  {
    hide RunState, Log, RunsHot, ForProcess, StatsMap, CpuMean, HeldMean, HeldBytes, Recent, Full, InTime, CpuVerdict,
         ToldAt, Ep.RunKey, Ep.OpsOf, Before, ActsBefore, Ep.ActAll, EventOf;
    var before, i := inputs[..|inputs| - 1], inputs[|inputs| - 1];
    var was, p := RunState(before), i.snap.processes.value[j];
    CpuJudgedExactly(inputs, j);
    StatsNow(inputs, j);
    CpuCases(p, StatsMap(RunState(inputs).fast, i.now), StatsMap(RunState(inputs).slow, i.now), i.a);
    VerdictHere(inputs, j);
    var v := ProcessVerdictsAt(was, i.now, i.snap, i.a)[2 * j];
    PassRaises(inputs, 2 * j);
    EventsAreNotes(before, ActsBefore(inputs, 2 * j), v, i.now, i.a.cooldown);
    var e := Usage(v.subject, v.detail, None);
    assert e in [e];
  }

  lemma VerdictHere(inputs: seq<Input>, j: nat)
    requires inputs != []
    requires var ps := inputs[|inputs| - 1].snap.processes; ps.Some? && j < |ps.value|
    ensures var i, was, st := inputs[|inputs| - 1], RunState(inputs[..|inputs| - 1]), RunState(inputs);
            var vs, p := ProcessVerdictsAt(was, i.now, i.snap, i.a), i.snap.processes.value[j];
            var fast, slow := StatsMap(st.fast, i.now), StatsMap(st.slow, i.now);
            && vs[2 * j] == CpuVerdict(p, fast, slow, i.a)
            && vs[2 * j + 1] == MemoryVerdict(p, fast, slow, i.a, i.snap.totalMemory)
  {
    var i, was, st := inputs[|inputs| - 1], RunState(inputs[..|inputs| - 1]), RunState(inputs);
    assert st.fast == WindowAfter(was.fast, P.WINDOW, i.now, i.snap);
    assert st.slow == WindowAfter(was.slow, P.SLOW_WINDOW, i.now, i.snap);
    hide RunState, StatsMap, WindowAfter, ProcessVerdicts, CpuVerdict, MemoryVerdict;
    ProcessVerdictsOf(
      i.snap.processes.value, j, StatsMap(st.fast, i.now), StatsMap(st.slow, i.now), i.a, i.snap.totalMemory);
  }

  // ---------------------------------------------------------------- records

  function RecordsAt(inputs: seq<Input>): seq<MetricRecord>
    requires inputs != []
  {
    var i := inputs[|inputs| - 1];
    Noted(RunState(inputs[..|inputs| - 1]), i.now, i.snap, i.a)
  }

  /** Two runs that see the same processes under the same base thresholds; overrides, disk,
      application, pressure and cooldown settings, and all other readings, may differ. */
  predicate SameForRecords(a: Input, b: Input) {
    && a.now == b.now
    && a.snap.timestamp == b.snap.timestamp && a.snap.totalMemory == b.snap.totalMemory
    && a.snap.processes == b.snap.processes
    && a.a.cpu.base == b.a.cpu.base && a.a.memory.base == b.a.memory.base && a.a.memoryBytes == b.a.memoryBytes
  }

  lemma RecordsStep(st: State, other: State, a: Input, b: Input)
    requires st.fast == other.fast && st.slow == other.slow && st.lastRecord == other.lastRecord
    requires SameForRecords(a, b)
    ensures var x, y := Next(st, a.now, a.snap, a.a), Next(other, b.now, b.snap, b.a);
            x.fast == y.fast && x.slow == y.slow && x.lastRecord == y.lastRecord
    ensures Noted(st, a.now, a.snap, a.a) == Noted(other, b.now, b.snap, b.a)
  {
    hide BookAfter, P.PressureStep, Recorded, StatsMap, TopSpenders, RecordsOf, AppsAfter;
  }

  /** Records never depend on overrides: the two runs keep identical windows and emit identical
      records at every step. */
  lemma {:induction false} RecordsIgnoreOverrides(a: seq<Input>, b: seq<Input>)
    requires |a| == |b| && forall i :: 0 <= i < |a| ==> SameForRecords(a[i], b[i])
    ensures RunState(a).fast == RunState(b).fast && RunState(a).slow == RunState(b).slow
    ensures RunState(a).lastRecord == RunState(b).lastRecord
    ensures forall n :: 1 <= n <= |a| ==> RecordsAt(a[..n]) == RecordsAt(b[..n])
  {
    hide Next, Noted, SameForRecords;
    if a != [] {
      var last := |a| - 1;
      var before, after := a[..last], b[..last];
      RecordsIgnoreOverrides(before, after);
      RecordsStep(RunState(before), RunState(after), a[last], b[last]);
      forall n | 1 <= n <= |a| ensures RecordsAt(a[..n]) == RecordsAt(b[..n]) {
        if n <= last {
          assert before[..n] == a[..n] && after[..n] == b[..n];
        } else {
          assert a[..n] == a && b[..n] == b;
        }
      }
    }
  }

  lemma {:induction false} RecordSources(r: Recorder, ps: seq<Process>)
    ensures forall j, m :: 0 <= j < |ps| && m in RecordOf(r, ps[j]) ==> m in RecordsOf(Some(r), ps)
    ensures forall m :: m in RecordsOf(Some(r), ps) ==> exists j :: 0 <= j < |ps| && m in RecordOf(r, ps[j])
  {
    hide RecordOf;
    if ps != [] {
      var last := |ps| - 1;
      RecordSources(r, ps[..last]);
      forall m | m in RecordsOf(Some(r), ps) ensures exists j :: 0 <= j < |ps| && m in RecordOf(r, ps[j]) {
        if m in RecordsOf(Some(r), ps[..last]) {
          var j :| 0 <= j < last && m in RecordOf(r, ps[..last][j]);
          assert m in RecordOf(r, ps[j]);
        }
      }
    }
  }

  /** What recording looks at in the last evaluation. */
  function RecorderNow(inputs: seq<Input>): Recorder
    requires inputs != []
  {
    var i, fast := inputs[|inputs| - 1], StatsMap(RunState(inputs).fast, inputs[|inputs| - 1].now);
    RecorderOf(i.snap, i.a, fast, TopSpenders(fast))
  }

  /** When records are due: a process gets one exactly when it has been sampled for 50 seconds
      and its one-minute mean is at a base threshold, or it is one of the five biggest
      spenders; and there are no other records. */
  lemma RecordedExactly(inputs: seq<Input>, j: nat)
    requires inputs != [] && InTime(inputs)
    requires var ps := inputs[|inputs| - 1].snap.processes; ps.Some? && j < |ps.value|
    requires RecordDue(RunState(inputs[..|inputs| - 1]).lastRecord, inputs[|inputs| - 1].now)
    ensures var i, log, r := inputs[|inputs| - 1], Log(inputs), RecorderNow(inputs);
            var p, total := i.snap.processes.value[j], i.snap.totalMemory;
            var recent, base := Recent(Full(log, p.pid), i.now, 60 * SECOND), MemoryBase(i.a, total);
            && recent != []
            && (RecordOf(r, p) != [] <==>
                  (Since(i.now, recent[0].at) >= 50 * SECOND
                   && (|| (i.a.cpu.base.Some? && CpuMean(recent) >= i.a.cpu.base.value)
                       || (base.Some? && total > 0 && AsU64(HeldMean(recent)) >= base.value)
                       || p.pid in r.top)))
            && (forall m :: m in RecordOf(r, p) ==> m in RecordsAt(inputs) && m.pid == p.pid && m.name == p.name)
            && (forall m :: m in RecordsAt(inputs) ==>
                  exists k :: 0 <= k < |i.snap.processes.value| && m in RecordOf(r, i.snap.processes.value[k]))
  {
    hide RunState, Log, Recent, Full, InTime, StatsMap, CpuMean, HeldMean, HeldBytes, MemoryBase, AsU64, MemShare,
         RecordsOf, TopSpenders, RecordsAt, RecordDue;
    StatsNow(inputs, j);
    var i, r := inputs[|inputs| - 1], RecorderNow(inputs);
    RecordSources(r, i.snap.processes.value);
    RecordsNow(inputs);
  }

  lemma RecordsNow(inputs: seq<Input>)
    requires inputs != [] && inputs[|inputs| - 1].snap.processes.Some?
    requires RecordDue(RunState(inputs[..|inputs| - 1]).lastRecord, inputs[|inputs| - 1].now)
    ensures RecordsAt(inputs) == RecordsOf(Some(RecorderNow(inputs)), inputs[|inputs| - 1].snap.processes.value)
  {
    hide StatsMap, WindowAfter, BookAfter, AppsAfter, P.PressureStep, RecordsOf, TopSpenders, RecordDue;
  }

  lemma {:induction false} LastRecordSince(inputs: seq<Input>, m: nat)
    requires InTime(inputs) && 1 <= m <= |inputs| && RecordsAt(inputs[..m]) != []
    ensures RunState(inputs).lastRecord.Some? && RunState(inputs).lastRecord.value >= inputs[m - 1].now
    ensures RunState(inputs).lastRecord.value <= inputs[|inputs| - 1].now
  {
    hide StatsMap, WindowAfter, BookAfter, AppsAfter, P.PressureStep, RecordsOf, TopSpenders;
    if m < |inputs| {
      var before := inputs[..|inputs| - 1];
      assert before[..m] == inputs[..m];
      LastRecordSince(before, m);
    } else {
      assert inputs[..m] == inputs;
    }
  }

  /** Two evaluations that record are at least a minute apart. */
  lemma RecordsAreSpaced(inputs: seq<Input>, m: nat, n: nat)
    requires InTime(inputs) && 1 <= m < n <= |inputs|
    requires RecordsAt(inputs[..m]) != [] && RecordsAt(inputs[..n]) != []
    ensures inputs[n - 1].now >= inputs[m - 1].now + 60 * SECOND
  {
    hide RunState, RecordsAt;
    var before := inputs[..n - 1];
    assert before[..m] == inputs[..m] && inputs[..n][..n - 1] == before;
    LastRecordSince(before, m);
    RecordsMeanDue(inputs[..n]);
  }

  lemma RecordsMeanDue(inputs: seq<Input>)
    requires inputs != [] && RecordsAt(inputs) != []
    ensures RecordDue(RunState(inputs[..|inputs| - 1]).lastRecord, inputs[|inputs| - 1].now)
  {
    hide StatsMap, WindowAfter, RecordsOf, TopSpenders, RunState, RecordDue;
  }

  // ---------------------------------------------------------------- episodes of the engine

  /** Everything a run has done to the book. */
  function Acts(inputs: seq<Input>): seq<Ep.Act> {
    if inputs == [] then []
    else
      var i, was := inputs[|inputs| - 1], RunState(inputs[..|inputs| - 1]);
      Acts(inputs[..|inputs| - 1]) + AppActs(was, i.now, i.snap, i.a) + ProcessActs(was, i.now, i.snap, i.a)
  }

  /** The book is what those acts make of an empty one. */
  lemma {:induction false} BookIsActs(inputs: seq<Input>)
    ensures RunState(inputs).book == Ep.ActAll(Ep.EMPTY, Acts(inputs))
  {
    if inputs != [] {
      var before, i := inputs[..|inputs| - 1], inputs[|inputs| - 1];
      BookIsActs(before);
      var was := RunState(before);
      hide AppActs, ProcessActs, P.PressureStep, Ep.ActAll, AppsAfter, WindowAfter;
      Ep.ActAllSplit(Ep.EMPTY, Acts(before), AppActs(was, i.now, i.snap, i.a));
      Ep.ActAllSplit(
        Ep.EMPTY, Acts(before) + AppActs(was, i.now, i.snap, i.a), ProcessActs(was, i.now, i.snap, i.a));
    } else {
      assert Ep.ActAll(Ep.EMPTY, []) == Ep.EMPTY;
    }
  }

  /** Judgements are dated with the evaluation they belong to and carry its cooldown. */
  predicate Dated(acts: seq<Ep.Act>, now: nat, cooldown: nat) {
    forall i :: 0 <= i < |acts| && acts[i].OnKey? ==>
      acts[i].op.at == now && (acts[i].op.Holds? ==> acts[i].op.cooldown == cooldown)
  }

  lemma {:induction false} ActsDated(vs: seq<Verdict>, now: nat, cooldown: nat)
    ensures Dated(ActsOf(vs, now, cooldown), now, cooldown)
  {
    if vs != [] { ActsDated(vs[..|vs| - 1], now, cooldown); }
  }

  lemma RoundDated(st: State, i: Input)
    ensures Dated(AppActs(st, i.now, i.snap, i.a) + ProcessActs(st, i.now, i.snap, i.a), i.now, i.a.cooldown)
  {
    hide ActsOf, StatsMap, ProcessVerdictsAt, AppVerdictsAt, AppsAfter, WindowAfter;
    if AppsEvaluated(i.snap, i.a) { ActsDated(AppVerdictsAt(st, i.now, i.snap, i.a), i.now, i.a.cooldown); }
    if i.snap.processes.Some? { ActsDated(ProcessVerdictsAt(st, i.now, i.snap, i.a), i.now, i.a.cooldown); }
  }

  /** Judgements of a run come in time order, each with at least the least cooldown in force. */
  predicate Orderly(acts: seq<Ep.Act>, c: nat, now: nat) {
    && (forall i, j :: 0 <= i < j < |acts| && acts[i].OnKey? && acts[j].OnKey? ==> acts[i].op.at <= acts[j].op.at)
    && (forall i :: 0 <= i < |acts| && acts[i].OnKey? ==>
          acts[i].op.at <= now && (acts[i].op.Holds? ==> acts[i].op.cooldown >= c))
  }

  lemma OrderlyMore(acts: seq<Ep.Act>, more: seq<Ep.Act>, c: nat, then': nat, now: nat, cooldown: nat)
    requires Orderly(acts, c, then') && then' <= now && Dated(more, now, cooldown) && cooldown >= c
    ensures Orderly(acts + more, c, now)
  {
  }

  lemma ActsNext(inputs: seq<Input>)
    ensures Acts([]) == []
    ensures inputs != [] ==>
              (var i, was := inputs[|inputs| - 1], RunState(inputs[..|inputs| - 1]);
               Acts(inputs) == Acts(inputs[..|inputs| - 1])
                               + (AppActs(was, i.now, i.snap, i.a) + ProcessActs(was, i.now, i.snap, i.a)))
  {
    hide AppActs, ProcessActs, RunState;
  }

  lemma NoneOrderly(c: nat)
    ensures Orderly([], c, 0)
  {
  }

  lemma {:induction false} RunOrderly(inputs: seq<Input>, c: nat)
    requires InTime(inputs) && forall i :: 0 <= i < |inputs| ==> inputs[i].a.cooldown >= c
    ensures Orderly(Acts(inputs), c, if inputs == [] then 0 else inputs[|inputs| - 1].now)
  {
    hide Acts, AppActs, ProcessActs, Orderly, Dated, RunState;
    ActsNext(inputs);
    NoneOrderly(c);
    if inputs != [] {
      var before, i := inputs[..|inputs| - 1], inputs[|inputs| - 1];
      RunOrderly(before, c);
      var was := RunState(before);
      RoundDated(was, i);
      var more := AppActs(was, i.now, i.snap, i.a) + ProcessActs(was, i.now, i.snap, i.a);
      OrderlyMore(Acts(before), more, c, if before == [] then 0 else before[|before| - 1].now, i.now, i.a.cooldown);
    }
  }

  predicate Among(acts: seq<Ep.Act>, op: Ep.Op) {
    exists j :: 0 <= j < |acts| && acts[j].OnKey? && acts[j].op == op
  }

  lemma AmongMore(acts: seq<Ep.Act>, op: Ep.Op)
    requires acts != [] && Among(acts[..|acts| - 1], op)
    ensures Among(acts, op)
  {
    var before := acts[..|acts| - 1];
    var j :| 0 <= j < |before| && before[j].OnKey? && before[j].op == op;
    assert acts[j] == before[j];
  }

  lemma {:induction false} OpsAmongActs(acts: seq<Ep.Act>, key: Ep.Key)
    ensures forall i :: 0 <= i < |Ep.OpsOf(acts, key)| ==> Among(acts, Ep.OpsOf(acts, key)[i])
  {
    if acts != [] {
      var before, last := acts[..|acts| - 1], acts[|acts| - 1];
      OpsAmongActs(before, key);
      hide Among;
      var was, ops := Ep.OpsOf(before, key), Ep.OpsOf(acts, key);
      forall i | 0 <= i < |ops| ensures Among(acts, ops[i]) {
        if i < |was| {
          AmongMore(acts, was[i]);
        } else {
          LastAmong(acts);
        }
      }
    }
  }

  lemma LastAmong(acts: seq<Ep.Act>)
    requires acts != [] && acts[|acts| - 1].OnKey?
    ensures Among(acts, acts[|acts| - 1].op)
  {
  }

  lemma {:induction false} OpsInTime(acts: seq<Ep.Act>, key: Ep.Key, c: nat, now: nat)
    requires Orderly(acts, c, now)
    ensures Ep.InTime(Ep.OpsOf(acts, key))
    ensures forall i :: 0 <= i < |Ep.OpsOf(acts, key)| && Ep.OpsOf(acts, key)[i].Holds? ==>
              Ep.OpsOf(acts, key)[i].cooldown >= c
  {
    OpsAmongActs(acts, key);
    if acts != [] {
      var before := acts[..|acts| - 1];
      OpsInTime(before, key, c, now);
      OpsAmongActs(before, key);
      assert forall j :: 0 <= j < |before| ==> before[j] == acts[j];
    }
  }

  lemma {:induction false} NotesCarryCooldown(ops: seq<Ep.Op>, c: nat)
    requires forall i :: 0 <= i < |ops| && ops[i].Holds? ==> ops[i].cooldown >= c
    ensures forall n :: 0 <= n < |Ep.RunKey(ops).notes| ==> Ep.RunKey(ops).notes[n].cooldown >= c
  {
    if ops != [] { NotesCarryCooldown(ops[..|ops| - 1], c); }
  }

  /** What the engine has told about one key since the key was last forgotten: a crossing,
      at most one follow-up, and so on; and in any span of time at most two per cooldown and
      two more. */
  lemma NotificationsOfARun(inputs: seq<Input>, key: Ep.Key, c: nat, span: nat, i: nat, j: nat)
    requires InTime(inputs) && c > 0 && forall n :: 0 <= n < |inputs| ==> inputs[n].a.cooldown >= c
    requires var notes := Ep.RunKey(Ep.OpsOf(Acts(inputs), key)).notes;
             i <= j < |notes| && notes[j].at <= notes[i].at + span
    ensures j - i + 1 <= 2 * (span / c + 1)
  {
    var acts := Acts(inputs);
    RunOrderly(inputs, c);
    OpsInTime(acts, key, c, if inputs == [] then 0 else inputs[|inputs| - 1].now);
    hide Acts, Ep.RunKey, Ep.OpsOf, Ep.InTime;
    NotesCarryCooldown(Ep.OpsOf(acts, key), c);
    Ep.NotificationsBounded(Ep.OpsOf(acts, key), c, span, i, j);
  }

  lemma NotesNext(ops: seq<Ep.Op>, now: nat, cooldown: nat)
    ensures var notes, more := Ep.RunKey(ops).notes, Ep.RunKey(ops + [Ep.Holds(now, cooldown)]).notes;
            var decision := Ep.Decide(Ep.RunKey(ops).entry, now, cooldown);
            more == notes + match decision case None => [] case Some(what) => [Ep.Note(now, what, cooldown, |ops|)]
  {
    assert (ops + [Ep.Holds(now, cooldown)])[..|ops|] == ops;
  }

  /** The book before a judgement: all of the run, and this pass up to the judgement. */
  function Before(inputs: seq<Input>, acts: seq<Ep.Act>): seq<Ep.Act> {
    Acts(inputs) + acts
  }

  /** An event is raised exactly when its judgement adds a note to its key. */
  lemma EventsAreNotes(inputs: seq<Input>, acts: seq<Ep.Act>, v: Verdict, now: nat, cooldown: nat)
    requires v.Above?
    ensures var book := Ep.ActAll(RunState(inputs).book, acts);
            var ops := Ep.OpsOf(Before(inputs, acts), v.key);
            var was, notes := Ep.RunKey(ops).notes, Ep.RunKey(ops + [Ep.Holds(now, cooldown)]).notes;
            && (EventOf(v, book, now, cooldown) == [] <==> notes == was)
            && (notes != was ==>
                  (|notes| == |was| + 1
                   && EventOf(v, book, now, cooldown) == [Usage(v.subject, v.detail, Ep.Elapsed(notes[|was|].what))]))
            // A first crossing is always told
            && (was == [] ==>
                  EventOf(v, book, now, cooldown) == [Usage(v.subject, v.detail, None)])
  {
    var all := Before(inputs, acts);
    var book := Ep.ActAll(RunState(inputs).book, acts);
    BookIsActs(inputs);
    Ep.ActAllSplit(Ep.EMPTY, Acts(inputs), acts);
    Ep.KeysIndependent(all, v.key);
    var ops := Ep.OpsOf(all, v.key);
    NotesNext(ops, now, cooldown);
    NoNotesIsBlank(ops);
    hide Acts, RunState, Ep.ActAll, Ep.OpsOf, Ep.RunKey, Before;
    assert Ep.Look(book, v.key) == Ep.RunKey(ops).entry;
  }

  lemma {:induction false} NoNotesIsBlank(ops: seq<Ep.Op>)
    ensures Ep.RunKey(ops).notes == [] ==> Ep.RunKey(ops).entry == Ep.BLANK
  {
    if ops != [] { NoNotesIsBlank(ops[..|ops| - 1]); }
  }
}
