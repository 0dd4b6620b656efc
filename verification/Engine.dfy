/** The alert engine's evaluation of one snapshot.

    Verdicts are taken from the rolling windows alone; the episode book then decides which of
    them notify. Records are taken from the windows and the base thresholds. */
module Engine {
  import opened Bytes
  import opened Collections
  import opened Matching
  import opened ActiveThresholds
  import opened Rolling
  import opened Episodes
  import opened Pressure
  import D = Disks

  const MIN_SPAN := 50 * SECOND
  const SLOW_MIN_SPAN := 250 * SECOND
  const ACUTE_FACTOR := 3.0
  const RECORD_EVERY := 60 * SECOND
  const RECORD_TOP_CPU_TIME := 5

  datatype Group = Group(root: Pid, name: Name, count: nat, cpu: real, memory: nat, footprint: Option<nat>)

  datatype Snapshot = Snapshot(
    timestamp: int, totalMemory: nat, pressureLevel: Option<nat>, disks: Option<seq<D.Disk>>,
    groups: Option<seq<Group>>, processes: Option<seq<Process>>)

  datatype Subject = OfApp(root: Pid, appName: Name, count: nat) | OfProcess(pid: Pid, name: Name)

  datatype Detail =
    | Cpu(avg: real, threshold: real, window: nat, runaway: bool)
    | Memory(avgBytes: nat, sharePercent: real, bar: nat, barPercent: real, window: nat)

  datatype Event =
    | Usage(subject: Subject, detail: Detail, repeatAfter: Option<nat>)
    | Volume(disk: D.DiskAlert)
    | System(pressure: PressureAlert)

  datatype MetricRecord = MetricRecord(
    timestamp: int, pid: Pid, name: Name, cpuAvg: real, memoryAvg: nat, sharePercent: real,
    footprintAvg: Option<nat>, cpuTime: nat)

  // ---------------------------------------------------------------- verdicts

  datatype Verdict = Unjudged | Under(key: Key) | Above(key: Key, subject: Subject, detail: Detail)

  function MemShare(bytes: real, total: nat): real {
    if total > 0 then bytes / total as real else 0.0
  }

  /** The footprint where the kernel let it be read, else the resident size. */
  function HeldBytes(s: Stats): real {
    match s.footprintAvg case Some(f) => f case None => s.memoryAvg
  }

  function MemoryDetail(s: Stats, bar: nat, total: nat): Detail {
    Memory(AsU64(HeldBytes(s)), MemShare(HeldBytes(s), total) * 100.0, bar,
           MemShare(bar as real, total) * 100.0, SLOW_WINDOW)
  }

  predicate Acute(fast: Stats, threshold: real) {
    fast.span >= MIN_SPAN && fast.cpuAvg >= ACUTE_FACTOR * threshold
  }

  predicate Chronic(slow: Stats, threshold: real) {
    slow.span >= SLOW_MIN_SPAN && slow.cpuAvg >= threshold
  }

  function CpuVerdict(p: Process, fast: map<Pid, Stats>, slow: map<Pid, Stats>, a: Active): Verdict {
    if p.pid !in fast || p.pid !in slow then Unjudged
    else
      match ForProcess(a.cpu, p.name)
      case None => Unjudged
      case Some(threshold) =>
        var key := Key(p.pid, CpuKind);
        if Acute(fast[p.pid], threshold) then
          Above(key, OfProcess(p.pid, p.name), Cpu(fast[p.pid].cpuAvg, ACUTE_FACTOR * threshold, WINDOW, true))
        else if Chronic(slow[p.pid], threshold) then
          Above(key, OfProcess(p.pid, p.name), Cpu(slow[p.pid].cpuAvg, threshold, SLOW_WINDOW, false))
        else Under(key)
  }

  function MemoryVerdict(
      p: Process, fast: map<Pid, Stats>, slow: map<Pid, Stats>, a: Active, total: nat): Verdict {
    if p.pid !in fast || p.pid !in slow then Unjudged
    else
      var bar, s := MemoryBar(a, p.name, total), slow[p.pid];
      if bar.None? || total == 0 || s.span < SLOW_MIN_SPAN then Unjudged
      else if AsU64(HeldBytes(s)) < bar.value then Under(Key(p.pid, MemoryKind))
      else Above(Key(p.pid, MemoryKind), OfProcess(p.pid, p.name), MemoryDetail(s, bar.value, total))
  }

  function SubjectOf(g: Group): Subject {
    OfApp(g.root, g.name, g.count)
  }

  function AppCpuVerdict(g: Group, stats: map<Pid, Stats>, a: Active): Verdict {
    if g.root !in stats || stats[g.root].span < SLOW_MIN_SPAN then Unjudged
    else
      match ForProcess(a.appCpu, g.name)
      case None => Unjudged
      case Some(threshold) =>
        var s := stats[g.root];
        if s.cpuAvg < threshold then Under(Key(g.root, AppCpuKind))
        else Above(Key(g.root, AppCpuKind), SubjectOf(g), Cpu(s.cpuAvg, threshold, SLOW_WINDOW, false))
  }

  function AppMemoryVerdict(g: Group, stats: map<Pid, Stats>, a: Active, total: nat): Verdict {
    if g.root !in stats || stats[g.root].span < SLOW_MIN_SPAN then Unjudged
    else
      var bar, s := AppMemoryBar(a, g.name, total), stats[g.root];
      if bar.None? || total == 0 then Unjudged
      else if AsU64(HeldBytes(s)) < bar.value then Under(Key(g.root, AppMemoryKind))
      else Above(Key(g.root, AppMemoryKind), SubjectOf(g), MemoryDetail(s, bar.value, total))
  }

  /** The verdicts in the order they are taken: each process's CPU, then its memory. */
  function ProcessVerdicts(
      processes: seq<Process>, fast: map<Pid, Stats>, slow: map<Pid, Stats>, a: Active, total: nat)
    : (vs: seq<Verdict>)
    ensures |vs| == 2 * |processes|
  {
    seq(2 * |processes|, i requires 0 <= i < 2 * |processes| =>
      if i % 2 == 0 then CpuVerdict(processes[i / 2], fast, slow, a)
      else MemoryVerdict(processes[i / 2], fast, slow, a, total))
  }

  lemma ProcessVerdictsOf(
      processes: seq<Process>, i: nat, fast: map<Pid, Stats>, slow: map<Pid, Stats>, a: Active, total: nat)
    requires i < |processes|
    ensures var vs := ProcessVerdicts(processes, fast, slow, a, total);
            && vs[2 * i] == CpuVerdict(processes[i], fast, slow, a)
            && vs[2 * i + 1] == MemoryVerdict(processes[i], fast, slow, a, total)
  {
    hide CpuVerdict, MemoryVerdict;
    assert 2 * i / 2 == i && (2 * i + 1) / 2 == i;
  }

  function AppVerdicts(groups: seq<Group>, stats: map<Pid, Stats>, a: Active, total: nat): (vs: seq<Verdict>)
    ensures |vs| == 2 * |groups|
  {
    seq(2 * |groups|, i requires 0 <= i < 2 * |groups| =>
      if i % 2 == 0 then AppCpuVerdict(groups[i / 2], stats, a)
      else AppMemoryVerdict(groups[i / 2], stats, a, total))
  }

  lemma AppVerdictsOf(groups: seq<Group>, i: nat, stats: map<Pid, Stats>, a: Active, total: nat)
    requires i < |groups|
    ensures var vs := AppVerdicts(groups, stats, a, total);
            && vs[2 * i] == AppCpuVerdict(groups[i], stats, a)
            && vs[2 * i + 1] == AppMemoryVerdict(groups[i], stats, a, total)
  {
    hide AppCpuVerdict, AppMemoryVerdict;
    assert 2 * i / 2 == i && (2 * i + 1) / 2 == i;
  }

  // ---------------------------------------------------------------- the book decides

  /** What a verdict does to the book. */
  function ActOf(v: Verdict, now: nat, cooldown: nat): seq<Act> {
    match v
    case Unjudged => []
    case Under(key) => [OnKey(key, Lapses(now))]
    case Above(key, _, _) => [OnKey(key, Holds(now, cooldown))]
  }

  function ActsOf(vs: seq<Verdict>, now: nat, cooldown: nat): seq<Act> {
    if vs == [] then []
    else ActsOf(vs[..|vs| - 1], now, cooldown) + ActOf(vs[|vs| - 1], now, cooldown)
  }

  function EventOf(v: Verdict, book: Book, now: nat, cooldown: nat): seq<Event> {
    if v.Above? then
      match Decide(Look(book, v.key), now, cooldown)
      case Some(notify) => [Usage(v.subject, v.detail, Elapsed(notify))]
      case None => []
    else []
  }

  function EventsOf(vs: seq<Verdict>, book: Book, now: nat, cooldown: nat): seq<Event> {
    if vs == [] then []
    else
      var before := vs[..|vs| - 1];
      EventsOf(before, book, now, cooldown)
      + EventOf(vs[|vs| - 1], ActAll(book, ActsOf(before, now, cooldown)), now, cooldown)
  }

  lemma VerdictNext(vs: seq<Verdict>, i: nat, book: Book, now: nat, cooldown: nat)
    requires i < |vs|
    ensures var before := ActAll(book, ActsOf(vs[..i], now, cooldown));
            && ActAll(book, ActsOf(vs[..i + 1], now, cooldown)) == ActAll(before, ActOf(vs[i], now, cooldown))
            && EventsOf(vs[..i + 1], book, now, cooldown)
               == EventsOf(vs[..i], book, now, cooldown) + EventOf(vs[i], before, now, cooldown)
  {
    assert vs[..i + 1][..i] == vs[..i];
    ActAllSplit(book, ActsOf(vs[..i], now, cooldown), ActOf(vs[i], now, cooldown));
  }

  /** The first `k` verdicts have had their effect on the book and raised `events`. */
  predicate Judged(vs: seq<Verdict>, k: nat, was: Book, now: nat, cooldown: nat, book: Book, events: seq<Event>) {
    && k <= |vs|
    && book == ActAll(was, ActsOf(vs[..k], now, cooldown))
    && events == EventsOf(vs[..k], was, now, cooldown)
  }

  lemma JudgedNone(vs: seq<Verdict>, was: Book, now: nat, cooldown: nat)
    ensures Judged(vs, 0, was, now, cooldown, was, [])
  {
  }

  lemma JudgedNext(vs: seq<Verdict>, k: nat, was: Book, now: nat, cooldown: nat, book: Book, events: seq<Event>)
    requires Judged(vs, k, was, now, cooldown, book, events) && k < |vs|
    ensures Judged(vs, k + 1, was, now, cooldown, ActAll(book, ActOf(vs[k], now, cooldown)),
                   events + EventOf(vs[k], book, now, cooldown))
  {
    VerdictNext(vs, k, was, now, cooldown);
  }

  lemma JudgedAll(vs: seq<Verdict>, k: nat, was: Book, now: nat, cooldown: nat, book: Book, events: seq<Event>)
    requires Judged(vs, k, was, now, cooldown, book, events) && k == |vs|
    ensures book == ActAll(was, ActsOf(vs, now, cooldown)) && events == EventsOf(vs, was, now, cooldown)
  {
    assert vs[..k] == vs;
  }

  lemma OneAct(book: Book, act: Act)
    ensures ActAll(book, [act]) == Acted(book, act) && ActAll(book, []) == book
  {
    assert [act][..0] == [];
  }

  method Judge(episodes: EpisodeState, v: Verdict, now: nat, cooldown: nat) returns (events: seq<Event>)
    modifies episodes
    ensures episodes.Value() == ActAll(old(episodes.Value()), ActOf(v, now, cooldown))
    ensures events == EventOf(v, old(episodes.Value()), now, cooldown)
  {
    events := [];
    match v {
      case Unjudged =>
        OneAct(episodes.Value(), Processes({}));
      case Under(key) =>
        OneAct(episodes.Value(), OnKey(key, Lapses(now)));
        episodes.Clear(key);
      case Above(key, subject, detail) =>
        OneAct(episodes.Value(), OnKey(key, Holds(now, cooldown)));
        var notify := episodes.Notify(key, now, cooldown);
        if notify.Some? {
          events := [Usage(subject, detail, Elapsed(notify.value))];
        }
    }
  }

  /** The two verdicts of one process or application, one after the other. */
  method JudgePair(
      episodes: EpisodeState, first: Verdict, second: Verdict, now: nat, cooldown: nat, told: seq<Event>,
      ghost vs: seq<Verdict>, ghost k: nat, ghost was: Book)
      returns (events: seq<Event>)
    requires Judged(vs, k, was, now, cooldown, episodes.Value(), told)
    requires k + 1 < |vs| && vs[k] == first && vs[k + 1] == second
    modifies episodes
    ensures Judged(vs, k + 2, was, now, cooldown, episodes.Value(), events)
  {
    hide *;
    JudgedNext(vs, k, was, now, cooldown, episodes.Value(), told);
    var cpu := Judge(episodes, first, now, cooldown);
    events := told + cpu;
    JudgedNext(vs, k + 1, was, now, cooldown, episodes.Value(), events);
    var memory := Judge(episodes, second, now, cooldown);
    events := events + memory;
  }

  // ---------------------------------------------------------------- the busiest few

  predicate Spends(s: Stats) {
    s.span >= MIN_SPAN && s.cpuTimeDelta > 0
  }

  /** `p` ranks before `q`: more CPU time, or as much and a smaller pid. */
  predicate Before(stats: map<Pid, Stats>, p: Pid, q: Pid) {
    && p in stats && q in stats
    && (stats[p].cpuTimeDelta > stats[q].cpuTimeDelta
        || (stats[p].cpuTimeDelta == stats[q].cpuTimeDelta && p < q))
  }

  function Ahead(stats: map<Pid, Stats>, pid: Pid): set<Pid> {
    set q | q in stats && Spends(stats[q]) && Before(stats, q, pid)
  }

  /** The spenders that fewer than five spenders outrank. */
  function TopSpenders(stats: map<Pid, Stats>): set<Pid> {
    set pid | pid in stats && Spends(stats[pid]) && |Ahead(stats, pid)| < RECORD_TOP_CPU_TIME
  }

  predicate Ranked(stats: map<Pid, Stats>, pids: seq<Pid>) {
    && (forall i :: 0 <= i < |pids| ==> pids[i] in stats)
    && (forall i, j :: 0 <= i < j < |pids| ==> Before(stats, pids[i], pids[j]))
  }

  function Insert(stats: map<Pid, Stats>, pids: seq<Pid>, pid: Pid): (more: seq<Pid>)
    ensures forall p :: p in more <==> p in pids || p == pid
  {
    Placed(pids, pid, (p: Pid) => Before(stats, pid, p))
  }

  lemma {:induction false} InsertRanks(stats: map<Pid, Stats>, pids: seq<Pid>, pid: Pid)
    requires Ranked(stats, pids) && pid in stats && pid !in pids
    ensures Ranked(stats, Insert(stats, pids, pid))
  {
    if pids != [] && !Before(stats, pid, pids[0]) {
      InsertRanks(stats, pids[1..], pid);
      var rest := Insert(stats, pids[1..], pid);
      assert forall i :: 0 <= i < |rest| ==> rest[i] in rest;
    }
  }

  /** In a ranking of all spenders, exactly `i` of them outrank the `i`th. */
  lemma AheadIsPrefix(stats: map<Pid, Stats>, pids: seq<Pid>, i: nat)
    requires Ranked(stats, pids) && i < |pids|
    requires forall p :: p in pids <==> p in stats && Spends(stats[p])
    ensures |Ahead(stats, pids[i])| == i
  {
    var ahead := pids[..i];
    forall q | q in Ahead(stats, pids[i]) ensures q in ahead {
      var k :| 0 <= k < |pids| && pids[k] == q;
    }
    assert Ahead(stats, pids[i]) == Elements(ahead);
    Counted(ahead);
  }

  method RankSpenders(stats: map<Pid, Stats>) returns (top: set<Pid>)
    ensures top == TopSpenders(stats)
  {
    var ranked: seq<Pid> := [];
    var todo := stats.Keys;
    while todo != {}
      invariant todo <= stats.Keys
      invariant Ranked(stats, ranked)
      invariant forall p :: p in ranked <==> p in stats && p !in todo && Spends(stats[p])
      decreases todo
    {
      var pid :| pid in todo;
      todo := todo - {pid};
      if Spends(stats[pid]) {
        InsertRanks(stats, ranked, pid);
        ranked := Insert(stats, ranked, pid);
      }
    }
    var kept := if |ranked| > RECORD_TOP_CPU_TIME then ranked[..RECORD_TOP_CPU_TIME] else ranked;
    top := set p | p in kept;
    forall i | 0 <= i < |ranked| ensures |Ahead(stats, ranked[i])| == i {
      AheadIsPrefix(stats, ranked, i);
    }
    forall p | p in TopSpenders(stats) ensures p in kept {
      var i :| 0 <= i < |ranked| && ranked[i] == p;
      assert kept[i] == p;
    }
    assert forall i :: 0 <= i < |kept| ==> kept[i] == ranked[i] && ranked[i] in ranked;
  }

  // ---------------------------------------------------------------- records

  /** What recording looks at: the one-minute windows, their biggest spenders and the bases. */
  datatype Recorder = Recorder(
    timestamp: int, total: nat, cpuBase: Option<real>, memoryBase: Option<nat>, fast: map<Pid, Stats>, top: set<Pid>)

  function RecorderOf(snap: Snapshot, a: Active, fast: map<Pid, Stats>, top: set<Pid>): Recorder {
    Recorder(snap.timestamp, snap.totalMemory, a.cpu.base, MemoryBase(a, snap.totalMemory), fast, top)
  }

  function RecordOf(r: Recorder, p: Process): seq<MetricRecord> {
    if p.pid !in r.fast || r.fast[p.pid].span < MIN_SPAN then []
    else
      var s := r.fast[p.pid];
      var overCpu := r.cpuBase.Some? && s.cpuAvg >= r.cpuBase.value;
      var overMemory := r.memoryBase.Some? && r.total > 0 && AsU64(HeldBytes(s)) >= r.memoryBase.value;
      if overCpu || overMemory || p.pid in r.top then
        [MetricRecord(
           r.timestamp, p.pid, p.name, s.cpuAvg, AsU64(s.memoryAvg), MemShare(s.memoryAvg, r.total) * 100.0,
           match s.footprintAvg case Some(f) => Some(AsU64(f)) case None => None,
           p.cpuTime)]
      else []
  }

  /** Records are taken only when they are due. */
  function RecordsOf(r: Option<Recorder>, processes: seq<Process>): seq<MetricRecord> {
    if processes == [] || r.None? then []
    else
      var last := |processes| - 1;
      RecordsOf(r, processes[..last]) + RecordOf(r.value, processes[last])
  }

  /** The first `i` processes have had their records taken. */
  predicate Taken(r: Option<Recorder>, processes: seq<Process>, i: nat, records: seq<MetricRecord>) {
    i <= |processes| && records == RecordsOf(r, processes[..i])
  }

  lemma TakenAll(r: Option<Recorder>, processes: seq<Process>, i: nat, records: seq<MetricRecord>)
    requires Taken(r, processes, i, records) && i == |processes|
    ensures records == RecordsOf(r, processes)
  {
    assert processes[..i] == processes;
  }

  method TakeRecord(r: Option<Recorder>, processes: seq<Process>, i: nat, taken: seq<MetricRecord>)
      returns (records: seq<MetricRecord>)
    requires i < |processes| && Taken(r, processes, i, taken)
    ensures Taken(r, processes, i + 1, records)
  {
    assert processes[..i + 1][..i] == processes[..i];
    records := taken;
    if r.Some? {
      records := records + RecordOf(r.value, processes[i]);
    }
  }

  // ---------------------------------------------------------------- one evaluation

  datatype State = State(
    fast: History, slow: History, apps: History, book: Book, disarmed: set<Name>, pressure: PressureState,
    lastRecord: Option<nat>)

  const FRESH := State(map[], map[], map[], EMPTY, {}, CALM, None)

  /** A group stands in for its root process in the windows. */
  function AsProcesses(groups: seq<Group>): (ps: seq<Process>)
    ensures |ps| == |groups|
    ensures forall i :: 0 <= i < |ps| ==>
              ps[i] == Process(groups[i].root, groups[i].name, groups[i].cpu, 0, groups[i].memory, groups[i].footprint)
  {
    seq(|groups|, i requires 0 <= i < |groups| =>
      Process(groups[i].root, groups[i].name, groups[i].cpu, 0, groups[i].memory, groups[i].footprint))
  }

  predicate AppsEvaluated(snap: Snapshot, a: Active) {
    snap.groups.Some? && (AnyEnabled(a.appCpu) || AnyEnabled(a.appMemory))
  }

  function AppsAfter(st: State, now: nat, snap: Snapshot, a: Active): History {
    if AppsEvaluated(snap, a) then Recorded(st.apps, SLOW_WINDOW, now, AsProcesses(snap.groups.value)) else st.apps
  }

  function AppVerdictsAt(st: State, now: nat, snap: Snapshot, a: Active): seq<Verdict>
    requires AppsEvaluated(snap, a)
  {
    AppVerdicts(snap.groups.value, StatsMap(AppsAfter(st, now, snap, a), now), a, snap.totalMemory)
  }

  /** What the application pass does to the book. */
  function AppActs(st: State, now: nat, snap: Snapshot, a: Active): seq<Act> {
    if AppsEvaluated(snap, a) then
      [Apps(StatsMap(AppsAfter(st, now, snap, a), now).Keys)]
      + ActsOf(AppVerdictsAt(st, now, snap, a), now, a.cooldown)
    else []
  }

  function AppEvents(st: State, now: nat, snap: Snapshot, a: Active): seq<Event> {
    if AppsEvaluated(snap, a) then
      var stats := StatsMap(AppsAfter(st, now, snap, a), now);
      EventsOf(AppVerdictsAt(st, now, snap, a), Acted(st.book, Apps(stats.Keys)), now, a.cooldown)
    else []
  }

  function WindowAfter(h: History, window: nat, now: nat, snap: Snapshot): History {
    match snap.processes case None => h case Some(ps) => Recorded(h, window, now, ps)
  }

  function ProcessVerdictsAt(st: State, now: nat, snap: Snapshot, a: Active): seq<Verdict>
    requires snap.processes.Some?
  {
    ProcessVerdicts(snap.processes.value,
                    StatsMap(WindowAfter(st.fast, WINDOW, now, snap), now),
                    StatsMap(WindowAfter(st.slow, SLOW_WINDOW, now, snap), now), a, snap.totalMemory)
  }

  function ProcessActs(st: State, now: nat, snap: Snapshot, a: Active): seq<Act> {
    if snap.processes.None? then []
    else
      [Processes(StatsMap(WindowAfter(st.fast, WINDOW, now, snap), now).Keys)]
      + ActsOf(ProcessVerdictsAt(st, now, snap, a), now, a.cooldown)
  }

  function ProcessEvents(st: State, book: Book, now: nat, snap: Snapshot, a: Active): seq<Event> {
    if snap.processes.None? then []
    else
      var stats := StatsMap(WindowAfter(st.fast, WINDOW, now, snap), now);
      EventsOf(ProcessVerdictsAt(st, now, snap, a), Acted(book, Processes(stats.Keys)), now, a.cooldown)
  }

  predicate RecordDue(last: Option<nat>, now: nat) {
    last.None? || Since(now, last.value) >= RECORD_EVERY
  }

  function BookAfter(st: State, now: nat, snap: Snapshot, a: Active): Book {
    ActAll(ActAll(st.book, AppActs(st, now, snap, a)), ProcessActs(st, now, snap, a))
  }

  function Next(st: State, now: nat, snap: Snapshot, a: Active): State {
    State(
      WindowAfter(st.fast, WINDOW, now, snap),
      WindowAfter(st.slow, SLOW_WINDOW, now, snap),
      AppsAfter(st, now, snap, a),
      BookAfter(st, now, snap, a),
      D.ActAll(st.disarmed, D.RoundOf(snap.disks, a.disk)),
      PressureStep(st.pressure, now, a.pressure, snap.pressureLevel).0,
      if snap.processes.Some? && RecordDue(st.lastRecord, now) then Some(now) else st.lastRecord)
  }

  function Volumes(alerts: seq<D.DiskAlert>): (events: seq<Event>)
    ensures |events| == |alerts| && forall i :: 0 <= i < |events| ==> events[i] == Volume(alerts[i])
  {
    seq(|alerts|, i requires 0 <= i < |alerts| => Volume(alerts[i]))
  }

  function PressureEvents(st: State, now: nat, snap: Snapshot, a: Active): seq<Event> {
    match PressureStep(st.pressure, now, a.pressure, snap.pressureLevel).1
    case Some(alert) => [System(alert)]
    case None => []
  }

  function Told(st: State, now: nat, snap: Snapshot, a: Active): seq<Event> {
    Volumes(D.AlertAll(st.disarmed, D.RoundOf(snap.disks, a.disk)))
    + PressureEvents(st, now, snap, a)
    + AppEvents(st, now, snap, a)
    + ProcessEvents(st, ActAll(st.book, AppActs(st, now, snap, a)), now, snap, a)
  }

  function Noted(st: State, now: nat, snap: Snapshot, a: Active): seq<MetricRecord> {
    if snap.processes.None? || !RecordDue(st.lastRecord, now) then []
    else
      var fast := StatsMap(WindowAfter(st.fast, WINDOW, now, snap), now);
      RecordsOf(Some(RecorderOf(snap, a, fast, TopSpenders(fast))), snap.processes.value)
  }

  method JudgeApps(episodes: EpisodeState, groups: seq<Group>, stats: map<Pid, Stats>, now: nat, total: nat, a: Active)
      returns (events: seq<Event>)
    modifies episodes
    ensures var vs := AppVerdicts(groups, stats, a, total);
            && episodes.Value() == ActAll(old(episodes.Value()), ActsOf(vs, now, a.cooldown))
            && events == EventsOf(vs, old(episodes.Value()), now, a.cooldown)
  {
    ghost var vs, was := AppVerdicts(groups, stats, a, total), episodes.Value();
    hide *;
    JudgedNone(vs, was, now, a.cooldown);
    events := [];
    ghost var k := 0;
    var i := 0;
    while i < |groups|
      invariant i <= |groups| && k == 2 * i
      invariant Judged(vs, k, was, now, a.cooldown, episodes.Value(), events)
    {
      AppVerdictsOf(groups, i, stats, a, total);
      events := JudgePair(
        episodes, AppCpuVerdict(groups[i], stats, a), AppMemoryVerdict(groups[i], stats, a, total), now, a.cooldown,
        events, vs, k, was);
      i, k := i + 1, k + 2;
    }
    JudgedAll(vs, k, was, now, a.cooldown, episodes.Value(), events);
  }

  /** What judging the processes looks at. */
  datatype Round = Round(
    processes: seq<Process>, fast: map<Pid, Stats>, slow: map<Pid, Stats>, total: nat, a: Active, now: nat,
    recorder: Option<Recorder>)

  function VerdictsIn(r: Round): seq<Verdict> {
    ProcessVerdicts(r.processes, r.fast, r.slow, r.a, r.total)
  }

  /** The first `i` processes of a round have been judged and recorded. */
  predicate Done(r: Round, i: nat, was: Book, book: Book, events: seq<Event>, records: seq<MetricRecord>) {
    && i <= |r.processes|
    && Judged(VerdictsIn(r), 2 * i, was, r.now, r.a.cooldown, book, events)
    && Taken(r.recorder, r.processes, i, records)
  }

  lemma DoneNone(r: Round, was: Book)
    ensures Done(r, 0, was, was, [], [])
  {
  }

  lemma DoneAll(r: Round, i: nat, was: Book, book: Book, events: seq<Event>, records: seq<MetricRecord>)
    requires Done(r, i, was, book, events, records) && i == |r.processes|
    ensures book == ActAll(was, ActsOf(VerdictsIn(r), r.now, r.a.cooldown))
    ensures events == EventsOf(VerdictsIn(r), was, r.now, r.a.cooldown)
    ensures records == RecordsOf(r.recorder, r.processes)
  {
    hide Judged, Taken, ActAll, ActsOf, EventsOf, RecordsOf, ProcessVerdicts;
    JudgedAll(VerdictsIn(r), 2 * i, was, r.now, r.a.cooldown, book, events);
    TakenAll(r.recorder, r.processes, i, records);
  }

  method JudgeProcess(
      episodes: EpisodeState, r: Round, i: nat, told: seq<Event>, taken: seq<MetricRecord>, ghost was: Book)
      returns (events: seq<Event>, records: seq<MetricRecord>)
    requires i < |r.processes| && Done(r, i, was, episodes.Value(), told, taken)
    modifies episodes
    ensures Done(r, i + 1, was, episodes.Value(), events, records)
  {
    hide Judged, Taken, ProcessVerdicts, CpuVerdict, MemoryVerdict;
    ProcessVerdictsOf(r.processes, i, r.fast, r.slow, r.a, r.total);
    var p := r.processes[i];
    var cpu, memory := CpuVerdict(p, r.fast, r.slow, r.a), MemoryVerdict(p, r.fast, r.slow, r.a, r.total);
    events := JudgePair(episodes, cpu, memory, r.now, r.a.cooldown, told, VerdictsIn(r), 2 * i, was);
    records := TakeRecord(r.recorder, r.processes, i, taken);
  }

  method JudgeProcesses(episodes: EpisodeState, r: Round) returns (events: seq<Event>, records: seq<MetricRecord>)
    modifies episodes
    ensures episodes.Value() == ActAll(old(episodes.Value()), ActsOf(VerdictsIn(r), r.now, r.a.cooldown))
    ensures events == EventsOf(VerdictsIn(r), old(episodes.Value()), r.now, r.a.cooldown)
    ensures records == RecordsOf(r.recorder, r.processes)
  {
    hide *;
    DoneNone(r, episodes.Value());
    events, records := [], [];
    var i := 0;
    while i < |r.processes|
      invariant i <= |r.processes| && Done(r, i, old(episodes.Value()), episodes.Value(), events, records)
    {
      events, records := JudgeProcess(episodes, r, i, events, records, old(episodes.Value()));
      i := i + 1;
    }
    DoneAll(r, i, old(episodes.Value()), episodes.Value(), events, records);
  }

  /** The engine, with its windows, books and rules. */
  class AlertEngine {
    const fast: ProcessWindows
    const slow: ProcessWindows
    const apps: ProcessWindows
    const episodes: EpisodeState
    const disks: D.DiskRule
    const pressure: PressureRule
    var lastRecord: Option<nat>

    predicate Valid() {
      && fast != slow && fast != apps && slow != apps
      && fast.window == WINDOW && slow.window == SLOW_WINDOW && apps.window == SLOW_WINDOW
    }

    function Value(): State
      reads this, fast, slow, apps, episodes, disks, pressure
    {
      State(fast.history, slow.history, apps.history, episodes.Value(), disks.disarmed, pressure.Value(), lastRecord)
    }

    constructor ()
      ensures Valid() && Value() == FRESH
      ensures fresh(fast) && fresh(slow) && fresh(apps) && fresh(episodes) && fresh(disks) && fresh(pressure)
    {
      fast := new ProcessWindows(WINDOW);
      slow := new ProcessWindows(SLOW_WINDOW);
      apps := new ProcessWindows(SLOW_WINDOW);
      episodes := new EpisodeState();
      disks := new D.DiskRule();
      pressure := new PressureRule();
      lastRecord := None;
    }

    method EvaluateApps(now: nat, snap: Snapshot, a: Active) returns (events: seq<Event>)
      requires Valid()
      modifies apps, episodes
      ensures apps.history == AppsAfter(old(Value()), now, snap, a)
      ensures episodes.Value() == ActAll(old(episodes.Value()), AppActs(old(Value()), now, snap, a))
      ensures events == AppEvents(old(Value()), now, snap, a)
    {
      ghost var st := Value();
      events := [];
      if !AppsEvaluated(snap, a) {
        return;
      }
      hide Recorded, StatsMap, ActAll, ActsOf, EventsOf, AppVerdicts, Pids;
      var groups := snap.groups.value;
      var stats := apps.Record(now, AsProcesses(groups));
      var present := stats.Keys;
      OneAct(episodes.Value(), Apps(present));
      episodes.Retain(AppKeep(present));
      ActAllSplit(st.book, [Apps(present)], ActsOf(AppVerdictsAt(st, now, snap, a), now, a.cooldown));
      events := JudgeApps(episodes, groups, stats, now, snap.totalMemory, a);
    }

    method EvaluateProcesses(now: nat, snap: Snapshot, a: Active)
        returns (events: seq<Event>, records: seq<MetricRecord>)
      requires Valid()
      modifies this, fast, slow, episodes
      ensures fast.history == WindowAfter(old(fast.history), WINDOW, now, snap)
      ensures slow.history == WindowAfter(old(slow.history), SLOW_WINDOW, now, snap)
      ensures episodes.Value() == ActAll(old(episodes.Value()), ProcessActs(old(Value()), now, snap, a))
      ensures lastRecord
           == if snap.processes.Some? && RecordDue(old(lastRecord), now) then Some(now) else old(lastRecord)
      ensures events == ProcessEvents(old(Value()), old(episodes.Value()), now, snap, a)
      ensures records == Noted(old(Value()), now, snap, a)
    {
      ghost var st := Value();
      events, records := [], [];
      if snap.processes.None? {
        return;
      }
      hide Recorded, StatsMap, ActAll, ActsOf, EventsOf, ProcessVerdicts, Pids, TopSpenders, RecordsOf;
      var processes := snap.processes.value;
      var due := RecordDue(lastRecord, now);
      if due {
        lastRecord := Some(now);
      }
      var fastStats := fast.Record(now, processes);
      var slowStats := slow.Record(now, processes);
      var top: set<Pid> := {};
      if due {
        top := RankSpenders(fastStats);
      }
      var present := fastStats.Keys;
      OneAct(episodes.Value(), Processes(present));
      episodes.Retain(ProcessKeep(present));
      ActAllSplit(st.book, [Processes(present)], ActsOf(ProcessVerdictsAt(st, now, snap, a), now, a.cooldown));
      var recorder := if due then Some(RecorderOf(snap, a, fastStats, top)) else None;
      var round := Round(processes, fastStats, slowStats, snap.totalMemory, a, now, recorder);
      events, records := JudgeProcesses(episodes, round);
    }

    /** Evaluate one snapshot observed at `now` under the thresholds of the moment. */
    method Evaluate(now: nat, snap: Snapshot, a: Active) returns (events: seq<Event>, records: seq<MetricRecord>)
      requires Valid()
      modifies this, fast, slow, apps, episodes, disks, pressure
      ensures Valid() && Value() == Next(old(Value()), now, snap, a)
      ensures events == Told(old(Value()), now, snap, a)
      ensures records == Noted(old(Value()), now, snap, a)
    {
      ghost var st := Value();
      hide ActAll, PressureStep, D.ActAll, D.AlertAll, D.RoundOf, AppsAfter, WindowAfter, RecordDue, RecordsOf,
           ProcessVerdictsAt, ActsOf, EventsOf, StatsMap, AppActs, TopSpenders;
      var volumes := disks.Evaluate(snap.disks, a.disk);
      var alert := pressure.Evaluate(now, a.pressure, snap.pressureLevel);
      SameApps(st, Value(), now, snap, a);
      var ofApps := EvaluateApps(now, snap, a);
      ghost var mid := Value();
      assert mid.fast == st.fast && mid.slow == st.slow && mid.lastRecord == st.lastRecord;
      SameWindows(st, mid, now, snap, a);
      var ofProcesses, noted := EvaluateProcesses(now, snap, a);
      records := noted;
      events := Volumes(volumes) + (if alert.Some? then [System(alert.value)] else []) + ofApps + ofProcesses;
    }
  }

  /** The application pass looks at its own windows and the book. */
  lemma SameApps(st: State, other: State, now: nat, snap: Snapshot, a: Active)
    requires st.apps == other.apps && st.book == other.book
    ensures AppsAfter(st, now, snap, a) == AppsAfter(other, now, snap, a)
    ensures AppActs(st, now, snap, a) == AppActs(other, now, snap, a)
    ensures AppEvents(st, now, snap, a) == AppEvents(other, now, snap, a)
  {
  }

  /** The process pass looks at the windows, never at the rest of the state. */
  lemma SameWindows(st: State, other: State, now: nat, snap: Snapshot, a: Active)
    requires st.fast == other.fast && st.slow == other.slow && st.lastRecord == other.lastRecord
    ensures ProcessActs(st, now, snap, a) == ProcessActs(other, now, snap, a)
    ensures forall book :: ProcessEvents(st, book, now, snap, a) == ProcessEvents(other, book, now, snap, a)
    ensures Noted(st, now, snap, a) == Noted(other, now, snap, a)
  {
  }
}
