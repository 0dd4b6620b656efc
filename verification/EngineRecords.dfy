/** What the engine records: when records are due, who gets one, and every figure in it, in terms
    of the settings and of the samples alone. */
module EngineRecords {
  import opened Bytes
  import opened Matching
  import opened ActiveThresholds
  import opened Rolling
  import Ep = Episodes
  import P = Pressure
  import opened Engine
  import opened EngineRuns

  /** The samples of `pid` since its last absence that are no older than a minute. */
  function LastMinute(inputs: seq<Input>, pid: Pid): seq<Sample>
    requires inputs != []
  {
    Recent(Full(Log(inputs), pid), inputs[|inputs| - 1].now, 60 * SECOND)
  }

  function ResidentMean(samples: seq<Sample>): real
    requires samples != []
  {
    MemoryTotal(samples) as real / |samples| as real
  }

  function FootprintMean(samples: seq<Sample>): Option<real> {
    var footprints := Footprints(samples);
    if footprints == [] then None else Some(Total(footprints) as real / |footprints| as real)
  }

  /** The CPU time used between the first and the last sample; a counter that ran back counts as
      nothing used. */
  function Spent(samples: seq<Sample>): nat
    requires samples != []
  {
    var first, last := samples[0].cpuTime, samples[|samples| - 1].cpuTime;
    if last >= first then last - first else 0
  }

  /** The one-minute window of a listed process holds the statistics of its last minute. */
  lemma MinuteStats(inputs: seq<Input>, j: nat)
    requires inputs != [] && InTime(inputs)
    requires var ps := inputs[|inputs| - 1].snap.processes; ps.Some? && j < |ps.value|
    ensures var i := inputs[|inputs| - 1];
            var pid, stats := i.snap.processes.value[j].pid, StatsMap(RunState(inputs).fast, i.now);
            pid in stats && LastMinute(inputs, pid) != [] && stats[pid] == StatsOf(LastMinute(inputs, pid), i.now)
  {
    hide RunState, Log, AppLog, Run, InTime, InOrder, StatsMap, StatsOf, Recent, Full;
    LogLast(inputs);
    WindowsAreLogged(inputs);
    LogsInOrder(inputs);
    StatsExact(P.WINDOW, Log(inputs), inputs[|inputs| - 1].snap.processes.value[j].pid);
  }

  lemma StatsSay(samples: seq<Sample>, now: nat)
    requires samples != []
    ensures var s := StatsOf(samples, now);
            && s.cpuAvg == CpuMean(samples) && s.memoryAvg == ResidentMean(samples)
            && s.footprintAvg == FootprintMean(samples) && s.cpuTimeDelta == Spent(samples)
            && (s.span >= 50 * SECOND <==> now >= samples[0].at + 50 * SECOND)
            && HeldBytes(s) == HeldMean(samples)
  {
    HeldIsMean(samples, now);
    hide CpuTotal, MemoryTotal, Footprints, Total, HeldBytes, HeldMean;
  }

  // ---------------------------------------------------------------- every figure

  /** The record of a process: the time of the snapshot, its pid and name, its mean CPU, its mean
      resident size in whole bytes and as a percentage of all memory, the mean of such footprints
      as there are, and its own CPU-time counter. */
  function RecordFor(snap: Snapshot, p: Process, samples: seq<Sample>): MetricRecord
    requires samples != []
  {
    MetricRecord(
      snap.timestamp, p.pid, p.name, CpuMean(samples), Whole(ResidentMean(samples)),
      if snap.totalMemory == 0 then 0.0 else ResidentMean(samples) / snap.totalMemory as real * 100.0,
      match FootprintMean(samples) case None => None case Some(f) => Some(Whole(f)),
      p.cpuTime)
  }

  lemma RecordSays(snap: Snapshot, a: Active, fast: map<Pid, Stats>, top: set<Pid>, p: Process, samples: seq<Sample>,
                   now: nat)
    requires samples != [] && p.pid in fast && fast[p.pid] == StatsOf(samples, now)
    ensures var r := RecorderOf(snap, a, fast, top);
            RecordOf(r, p) != [] ==> RecordOf(r, p) == [RecordFor(snap, p, samples)]
  {
    StatsSay(samples, now);
    AsU64IsWhole(ResidentMean(samples));
    if FootprintMean(samples).Some? { AsU64IsWhole(FootprintMean(samples).value); }
    hide StatsOf, CpuMean, ResidentMean, FootprintMean, HeldBytes, HeldMean, Whole, AsU64, MemoryBase;
  }

  /** Every record of an evaluation is that of a listed process and its last minute. */
  lemma RecordsSay(inputs: seq<Input>, m: MetricRecord) returns (j: nat)
    requires inputs != [] && InTime(inputs) && m in RecordsAt(inputs)
    ensures var ps := inputs[|inputs| - 1].snap.processes;
            && ps.Some? && j < |ps.value|
            && LastMinute(inputs, ps.value[j].pid) != []
            && m == RecordFor(inputs[|inputs| - 1].snap, ps.value[j], LastMinute(inputs, ps.value[j].pid))
  {
    hide RunState, InTime, StatsMap, StatsOf, RecordsOf, RecordOf, TopSpenders, LastMinute, RecordFor, RecordDue;
    RecordsNeedList(inputs);
    var i, r := inputs[|inputs| - 1], RecorderNow(inputs);
    RecordsNow(inputs);
    RecordSources(r, i.snap.processes.value);
    j :| 0 <= j < |i.snap.processes.value| && m in RecordOf(r, i.snap.processes.value[j]);
    MinuteStats(inputs, j);
    var fast := StatsMap(RunState(inputs).fast, i.now);
    var p := i.snap.processes.value[j];
    RecordSays(i.snap, i.a, fast, TopSpenders(fast), p, LastMinute(inputs, p.pid), i.now);
  }

  lemma RecordsNeedList(inputs: seq<Input>)
    requires inputs != [] && RecordsAt(inputs) != []
    ensures inputs[|inputs| - 1].snap.processes.Some?
    ensures RecordDue(RunState(inputs[..|inputs| - 1]).lastRecord, inputs[|inputs| - 1].now)
  {
    hide StatsMap, WindowAfter, RecordsOf, TopSpenders, RunState, RecordDue;
  }

  // ---------------------------------------------------------------- who gets one

  /** A listed process that has been sampled for 50 seconds and has used CPU time in its last
      minute. */
  predicate IsSpender(inputs: seq<Input>, pid: Pid)
    requires inputs != []
  {
    var i := inputs[|inputs| - 1];
    && i.snap.processes.Some? && pid in Pids(i.snap.processes.value)
    && (var minute := LastMinute(inputs, pid);
        minute != [] && i.now >= minute[0].at + 50 * SECOND && Spent(minute) > 0)
  }

  /** The spenders that used more than `pid`, or as much and have a smaller pid. */
  function Outspend(inputs: seq<Input>, pid: Pid): set<Pid>
    requires inputs != [] && LastMinute(inputs, pid) != []
  {
    var ps := inputs[|inputs| - 1].snap.processes;
    var listed := if ps.Some? then Pids(ps.value) else {};
    set q | q in listed && IsSpender(inputs, q)
            && (|| Spent(LastMinute(inputs, q)) > Spent(LastMinute(inputs, pid))
                || (Spent(LastMinute(inputs, q)) == Spent(LastMinute(inputs, pid)) && q < pid))
  }

  lemma ListedHasStats(inputs: seq<Input>, pid: Pid)
    requires inputs != [] && InTime(inputs) && inputs[|inputs| - 1].snap.processes.Some?
    ensures var i := inputs[|inputs| - 1];
            var stats, listed := StatsMap(RunState(inputs).fast, i.now), pid in Pids(i.snap.processes.value);
            && (pid in stats <==> listed)
            && (listed ==>
                  && LastMinute(inputs, pid) != []
                  && stats[pid].cpuTimeDelta == Spent(LastMinute(inputs, pid))
                  && (Spends(stats[pid]) <==> IsSpender(inputs, pid)))
  {
    hide RunState, Log, AppLog, Run, InTime, InOrder, StatsMap, StatsOf, Recent, Full, Spent, LastMinute;
    LogLast(inputs);
    WindowsAreLogged(inputs);
    LogsInOrder(inputs);
    StatsExact(P.WINDOW, Log(inputs), pid);
    var i := inputs[|inputs| - 1];
    if pid in Pids(i.snap.processes.value) {
      var j: nat :| j < |i.snap.processes.value| && i.snap.processes.value[j].pid == pid;
      MinuteStats(inputs, j);
      StatsSay(LastMinute(inputs, pid), i.now);
    }
  }

  /** The top of the spenders: those whom fewer than five outspend. */
  lemma TopMeans(inputs: seq<Input>, pid: Pid)
    requires inputs != [] && InTime(inputs) && inputs[|inputs| - 1].snap.processes.Some?
    ensures pid in RecorderNow(inputs).top <==> IsSpender(inputs, pid) && |Outspend(inputs, pid)| < 5
  {
    hide RunState, InTime, StatsMap, Spent, LastMinute, Spends, IsSpender;
    var i := inputs[|inputs| - 1];
    var stats := StatsMap(RunState(inputs).fast, i.now);
    ListedHasStats(inputs, pid);
    SpendersAreListed(inputs, pid);
    if pid in stats {
      forall q ensures q in Ahead(stats, pid) <==> q in Outspend(inputs, pid) {
        ListedHasStats(inputs, q);
      }
      assert Ahead(stats, pid) == Outspend(inputs, pid);
    }
  }

  lemma SpendersAreListed(inputs: seq<Input>, pid: Pid)
    requires inputs != []
    ensures IsSpender(inputs, pid) ==>
              inputs[|inputs| - 1].snap.processes.Some? && pid in Pids(inputs[|inputs| - 1].snap.processes.value)
    ensures IsSpender(inputs, pid) ==> LastMinute(inputs, pid) != []
  {
  }

  /** The base bar is reached: the base fraction of all memory, or the ceiling. */
  predicate OverBase(a: Active, total: nat, amount: real) {
    || (a.memory.base.Some? && Whole(amount) >= Portion(a.memory.base.value, total))
    || (a.memoryBytes.Some? && Whole(amount) >= a.memoryBytes.value)
  }

  lemma BaseIsReached(a: Active, total: nat, amount: real)
    ensures var base := MemoryBase(a, total);
            (base.Some? && AsU64(amount) >= base.value) <==> OverBase(a, total, amount)
  {
    hide Portion, FractionBytes, Whole, AsU64;
    AsU64IsWhole(amount);
    if a.memory.base.Some? { FractionIsPortion(a.memory.base.value, total); }
  }

  /** When records are due a listed process gets one, its own, if and only if it has been sampled
      for 50 seconds and its last minute reaches the base CPU threshold or the base memory bar,
      whatever the overrides, or it is at the top of the spenders. */
  lemma RecordedWhen(inputs: seq<Input>, j: nat)
    requires inputs != [] && InTime(inputs)
    requires var ps := inputs[|inputs| - 1].snap.processes; ps.Some? && j < |ps.value|
    requires RecordDue(RunState(inputs[..|inputs| - 1]).lastRecord, inputs[|inputs| - 1].now)
    ensures var i, r := inputs[|inputs| - 1], RecorderNow(inputs);
            var p, total := i.snap.processes.value[j], i.snap.totalMemory;
            var minute := LastMinute(inputs, p.pid);
            && minute != []
            && (RecordOf(r, p) == []
                || (&& RecordOf(r, p) == [RecordFor(i.snap, p, minute)]
                    && RecordFor(i.snap, p, minute) in RecordsAt(inputs)))
            && (RecordOf(r, p) != [] <==>
                  (i.now >= minute[0].at + 50 * SECOND
                   && (|| (i.a.cpu.base.Some? && CpuMean(minute) >= i.a.cpu.base.value)
                       || (total > 0 && OverBase(i.a, total, HeldMean(minute)))
                       || (IsSpender(inputs, p.pid) && |Outspend(inputs, p.pid)| < 5))))
  {
    hide RunState, InTime, StatsMap, StatsOf, RecordsOf, RecordOf, TopSpenders, RecordFor, RecordDue, CpuMean, HeldMean,
         MemoryBase, AsU64, OverBase, IsSpender, Outspend, Recent, Full, Log, RecordsAt, AppLog;
    var i, r := inputs[|inputs| - 1], RecorderNow(inputs);
    var p := i.snap.processes.value[j];
    var fast := StatsMap(RunState(inputs).fast, i.now);
    RecordedExactly(inputs, j);
    MinuteStats(inputs, j);
    RecordSays(i.snap, i.a, fast, TopSpenders(fast), p, LastMinute(inputs, p.pid), i.now);
    BaseIsReached(i.a, i.snap.totalMemory, HeldMean(LastMinute(inputs, p.pid)));
    TopMeans(inputs, p.pid);
  }

  /** Records stand in the order of the processes. */
  lemma {:induction false} RecordsInOrder(r: Recorder, a: seq<Process>, b: seq<Process>)
    ensures RecordsOf(Some(r), a + b) == RecordsOf(Some(r), a) + RecordsOf(Some(r), b)
  {
    hide RecordOf;
    if b == [] {
      assert a + b == a;
    } else {
      assert (a + b)[..|a + b| - 1] == a + b[..|b| - 1];
      RecordsInOrder(r, a, b[..|b| - 1]);
    }
  }

  // ---------------------------------------------------------------- when

  /** The `n`th evaluation lists processes and records are due. */
  predicate DueAt(inputs: seq<Input>, n: nat) {
    && n < |inputs| && inputs[n].snap.processes.Some?
    && RecordDue(RunState(inputs[..n]).lastRecord, inputs[n].now)
  }

  lemma LastRecordStep(inputs: seq<Input>)
    requires inputs != []
    ensures RunState([]).lastRecord == None
    ensures var last := |inputs| - 1;
            RunState(inputs).lastRecord
            == if DueAt(inputs, last) then Some(inputs[last].now) else RunState(inputs[..last]).lastRecord
  {
    hide StatsMap, WindowAfter, BookAfter, AppsAfter, P.PressureStep, RecordDue;
  }

  lemma {:induction false} NoneDueYet(inputs: seq<Input>, n: nat)
    requires n <= |inputs| && forall k :: 0 <= k < n ==> !DueAt(inputs, k)
    ensures RunState(inputs[..n]).lastRecord == None
  {
    hide DueAt, RunState;
    if n == 0 {
      LastRecordStart();
    } else {
      NoneDueYet(inputs, n - 1);
      assert inputs[..n][..n - 1] == inputs[..n - 1];
      SameDue(inputs, n, n - 1);
      LastRecordStep(inputs[..n]);
    }
  }

  lemma LastRecordStart()
    ensures RunState([]).lastRecord == None
  {
  }

  lemma SameDue(inputs: seq<Input>, n: nat, k: nat)
    requires k < n <= |inputs|
    ensures DueAt(inputs[..n], k) == DueAt(inputs, k)
  {
    hide RunState, RecordDue;
    assert inputs[..n][..k] == inputs[..k];
  }

  lemma {:induction false} LastDueWas(inputs: seq<Input>, m: nat, n: nat)
    requires m < n <= |inputs| && DueAt(inputs, m) && forall k :: m < k < n ==> !DueAt(inputs, k)
    ensures RunState(inputs[..n]).lastRecord == Some(inputs[m].now)
  {
    hide DueAt, RunState;
    assert inputs[..n][..n - 1] == inputs[..n - 1];
    SameDue(inputs, n, n - 1);
    LastRecordStep(inputs[..n]);
    if m < n - 1 { LastDueWas(inputs, m, n - 1); }
  }

  /** Records are due at the first evaluation that lists processes, and after that at exactly
      those that list them a minute or more after records were last due. */
  lemma DueExactly(inputs: seq<Input>, n: nat)
    requires InTime(inputs) && n < |inputs| && inputs[n].snap.processes.Some?
    ensures (forall k :: 0 <= k < n ==> !DueAt(inputs, k)) ==> DueAt(inputs, n)
    ensures forall m :: 0 <= m < n && DueAt(inputs, m) && (forall k :: m < k < n ==> !DueAt(inputs, k)) ==>
              (DueAt(inputs, n) <==> inputs[n].now >= inputs[m].now + 60 * SECOND)
  {
    hide RunState;
    if forall k :: 0 <= k < n ==> !DueAt(inputs, k) { NoneDueYet(inputs, n); }
    forall m | 0 <= m < n && DueAt(inputs, m) && (forall k :: m < k < n ==> !DueAt(inputs, k))
      ensures DueAt(inputs, n) <==> inputs[n].now >= inputs[m].now + 60 * SECOND
    {
      LastDueWas(inputs, m, n);
    }
  }
}
