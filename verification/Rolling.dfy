/** Rolling per-process windows: averages over the samples no older than a fixed window.

    Times are nanoseconds on a clock that does not run backwards; CPU and averages are exact
    reals. */
module Rolling {
  import opened Bytes
  import opened Collections
  import opened Matching

  type Pid = nat

  const SECOND := 1_000_000_000

  datatype Process = Process(
    pid: Pid, name: Name, cpu: real, cpuTime: nat, memory: nat, footprint: Option<nat>)

  datatype Sample = Sample(at: nat, cpu: real, memory: nat, footprint: Option<nat>, cpuTime: nat)

  datatype Stats = Stats(
    cpuAvg: real, cpuTimeDelta: nat, memoryAvg: real, footprintAvg: Option<real>, span: nat, samples: nat)

  type History = map<Pid, seq<Sample>>

  /** `duration_since`, which saturates at zero. */
  function Since(now: nat, then': nat): nat {
    if now > then' then now - then' else 0
  }

  function SampleOf(now: nat, p: Process): Sample {
    Sample(now, p.cpu, p.memory, p.footprint, p.cpuTime)
  }

  // ---------------------------------------------------------------- statistics

  function CpuTotal(samples: seq<Sample>): real {
    if samples == [] then 0.0 else CpuTotal(samples[..|samples| - 1]) + samples[|samples| - 1].cpu
  }

  function MemoryTotal(samples: seq<Sample>): nat {
    if samples == [] then 0 else MemoryTotal(samples[..|samples| - 1]) + samples[|samples| - 1].memory
  }

  /** The footprints of the samples that carry one. */
  function Footprints(samples: seq<Sample>): seq<nat> {
    if samples == [] then []
    else
      Footprints(samples[..|samples| - 1]) +
      match samples[|samples| - 1].footprint case Some(f) => [f] case None => []
  }

  function Total(values: seq<nat>): nat {
    if values == [] then 0 else Total(values[..|values| - 1]) + values[|values| - 1]
  }

  function StatsOf(samples: seq<Sample>, now: nat): Stats
    requires samples != []
  {
    var n := |samples|;
    var footprints := Footprints(samples);
    Stats(
      CpuTotal(samples) / n as real,
      Since(samples[n - 1].cpuTime, samples[0].cpuTime),
      MemoryTotal(samples) as real / n as real,
      if footprints == [] then None else Some(Total(footprints) as real / |footprints| as real),
      Since(now, samples[0].at),
      n)
  }

  // ---------------------------------------------------------------- recording

  /** Samples too old for the window are dropped from the front. */
  function Prune(samples: seq<Sample>, now: nat, window: nat): seq<Sample> {
    if samples != [] && Since(now, samples[0].at) > window then Prune(samples[1..], now, window) else samples
  }

  function Of(history: History, pid: Pid): seq<Sample> {
    if pid in history then history[pid] else []
  }

  function Pids(processes: seq<Process>): (pids: set<Pid>)
    ensures forall pid :: pid in pids <==> exists i :: 0 <= i < |processes| && processes[i].pid == pid
  {
    set i | 0 <= i < |processes| :: processes[i].pid
  }

  function Retained(history: History, processes: seq<Process>): History {
    map pid | pid in history && pid in Pids(processes) :: history[pid]
  }

  function Push(history: History, window: nat, now: nat, p: Process): History {
    history[p.pid := Prune(Of(history, p.pid) + [SampleOf(now, p)], now, window)]
  }

  function PushAll(history: History, window: nat, now: nat, processes: seq<Process>): History {
    if processes == [] then history
    else
      var last := |processes| - 1;
      Push(PushAll(history, window, now, processes[..last]), window, now, processes[last])
  }

  function Recorded(history: History, window: nat, now: nat, processes: seq<Process>): History {
    PushAll(Retained(history, processes), window, now, processes)
  }

  function StatsFor(history: History, now: nat, pids: set<Pid>): map<Pid, Stats> {
    map pid | pid in pids && pid in history && history[pid] != [] :: StatsOf(history[pid], now)
  }

  /** Each pid's statistics over what its window holds. */
  function StatsMap(history: History, now: nat): map<Pid, Stats> {
    StatsFor(history, now, history.Keys)
  }

  lemma StatsStep(history: History, now: nat, pids: set<Pid>, pid: Pid, samples: seq<Sample>)
    requires samples != []
    ensures StatsFor(history[pid := samples], now, pids + {pid})
         == StatsFor(history, now, pids)[pid := StatsOf(samples, now)]
  {
  }

  lemma {:induction false} PruneKeepsNew(held: seq<Sample>, now: nat, window: nat, p: Process)
    ensures Prune(held + [SampleOf(now, p)], now, window) != []
  {
    if held != [] {
      assert (held + [SampleOf(now, p)])[1..] == held[1..] + [SampleOf(now, p)];
      PruneKeepsNew(held[1..], now, window, p);
    }
  }

  lemma {:induction false} PushAllKeys(history: History, window: nat, now: nat, processes: seq<Process>)
    ensures PushAll(history, window, now, processes).Keys == history.Keys + Pids(processes)
    ensures forall pid :: pid in Pids(processes) ==> PushAll(history, window, now, processes)[pid] != []
  {
    hide Prune;
    if processes != [] {
      var last := |processes| - 1;
      var before := processes[..last];
      PushAllKeys(history, window, now, before);
      PruneKeepsNew(Of(PushAll(history, window, now, before), processes[last].pid), now, window, processes[last]);
      PidsNext(processes, last);
    }
  }

  lemma PidsNext(processes: seq<Process>, i: nat)
    requires i < |processes|
    ensures Pids(processes[..i + 1]) == Pids(processes[..i]) + {processes[i].pid}
    ensures i + 1 == |processes| ==> Pids(processes) == Pids(processes[..i]) + {processes[i].pid}
  {
    if i + 1 == |processes| { assert processes[..i + 1] == processes; }
  }

  class ProcessWindows {
    const window: nat
    var history: History

    constructor (window: nat)
      ensures this.window == window && history == map[]
    {
      this.window := window;
      history := map[];
    }

    /** The new sample goes in at the back; the front loses what is too old by now. */
    method PushBack(held: seq<Sample>, now: nat, p: Process) returns (samples: seq<Sample>)
      ensures samples == Prune(held + [SampleOf(now, p)], now, window) != []
    {
      samples := held + [SampleOf(now, p)];
      while samples != [] && Since(now, samples[0].at) > window
        invariant Prune(samples, now, window) == Prune(held + [SampleOf(now, p)], now, window)
        invariant samples != [] && samples[|samples| - 1] == SampleOf(now, p)
        decreases |samples|
      {
        samples := samples[1..];
      }
    }

    /** Record `processes` as observed at `now`. Pids not among them are forgotten; those that
        are get this sample and lose the ones too old; the averages are over what is left. */
    method Record(now: nat, processes: seq<Process>) returns (stats: map<Pid, Stats>)
      modifies this
      ensures history == Recorded(old(history), window, now, processes)
      ensures stats == StatsMap(history, now)
      ensures stats.Keys == Pids(processes)
    {
      history := Retained(history, processes);
      ghost var kept := history;
      StatsNone(history, now, processes);
      hide *;
      stats := map[];
      var i := 0;
      while i < |processes|
        invariant i <= |processes|
        invariant history == PushAll(kept, window, now, processes[..i])
        invariant stats == StatsFor(history, now, Pids(processes[..i]))
      {
        var p := processes[i];
        var samples := PushBack(Of(history, p.pid), now, p);
        PushNext(kept, window, now, processes, i);
        StatsStep(history, now, Pids(processes[..i]), p.pid, samples);
        PidsNext(processes, i);
        history := history[p.pid := samples];
        stats := stats[p.pid := StatsOf(samples, now)];
        i := i + 1;
      }
      assert processes[..i] == processes;
      RecordedStats(old(history), window, now, processes);
    }
  }

  lemma StatsNone(history: History, now: nat, processes: seq<Process>)
    ensures StatsFor(history, now, Pids(processes[..0])) == map[]
    ensures forall h, w :: PushAll(h, w, now, processes[..0]) == h
  {
  }

  lemma PushNext(history: History, window: nat, now: nat, processes: seq<Process>, i: nat)
    requires i < |processes|
    ensures var before, p := PushAll(history, window, now, processes[..i]), processes[i];
            PushAll(history, window, now, processes[..i + 1])
            == before[p.pid := Prune(Of(before, p.pid) + [SampleOf(now, p)], now, window)]
  {
    assert processes[..i + 1][..i] == processes[..i];
  }

  lemma RecordedStats(history: History, window: nat, now: nat, processes: seq<Process>)
    ensures var after := PushAll(Retained(history, processes), window, now, processes);
            && after == Recorded(history, window, now, processes)
            && StatsMap(after, now) == StatsFor(after, now, Pids(processes))
            && StatsMap(after, now).Keys == Pids(processes)
  {
    var kept := Retained(history, processes);
    PushAllKeys(kept, window, now, processes);
    assert kept.Keys + Pids(processes) == Pids(processes);
  }

  // ---------------------------------------------------------------- the unpruned history

  datatype Observation = Observation(at: nat, processes: seq<Process>)

  /** Observations in time order. */
  predicate InOrder(log: seq<Observation>) {
    Ascending(log, (o: Observation) => o.at)
  }

  /** What a fresh window holds after a run of records. */
  function Run(window: nat, log: seq<Observation>): History {
    if log == [] then map[]
    else
      var last := |log| - 1;
      Recorded(Run(window, log[..last]), window, log[last].at, log[last].processes)
  }

  function SamplesIn(now: nat, processes: seq<Process>, pid: Pid): seq<Sample> {
    if processes == [] then []
    else
      var last := |processes| - 1;
      SamplesIn(now, processes[..last], pid)
      + if processes[last].pid == pid then [SampleOf(now, processes[last])] else []
  }

  /** Every sample of `pid` since it was last absent from an observation. */
  function Full(log: seq<Observation>, pid: Pid): seq<Sample> {
    if log == [] then []
    else
      var last := |log| - 1;
      if pid !in Pids(log[last].processes) then []
      else Full(log[..last], pid) + SamplesIn(log[last].at, log[last].processes, pid)
  }

  /** The samples whose age is at most `window`. */
  function Recent(samples: seq<Sample>, now: nat, window: nat): seq<Sample> {
    if samples == [] then []
    else (if Since(now, samples[0].at) <= window then [samples[0]] else []) + Recent(samples[1..], now, window)
  }

  predicate Sorted(samples: seq<Sample>) {
    forall i, j :: 0 <= i < j < |samples| ==> samples[i].at <= samples[j].at
  }

  lemma RecentFirst(s: seq<Sample>, now: nat, window: nat)
    ensures Recent([], now, window) == []
    ensures s != [] ==>
              Recent(s, now, window) == (if now <= s[0].at + window then [s[0]] else []) + Recent(s[1..], now, window)
  {
  }

  lemma {:induction false} RecentAppend(a: seq<Sample>, b: seq<Sample>, now: nat, window: nat)
    ensures Recent(a + b, now, window) == Recent(a, now, window) + Recent(b, now, window)
  {
    hide Since, Recent;
    RecentFirst(a, now, window);
    if a == [] {
      assert a + b == b;
    } else {
      RecentFirst(a + b, now, window);
      assert (a + b)[1..] == a[1..] + b && (a + b)[0] == a[0];
      RecentAppend(a[1..], b, now, window);
    }
  }

  lemma {:induction false} RecentAgain(s: seq<Sample>, then': nat, now: nat, window: nat)
    requires then' <= now
    ensures Recent(Recent(s, then', window), now, window) == Recent(s, now, window)
  {
    if s != [] {
      RecentAgain(s[1..], then', now, window);
      var first := if Since(then', s[0].at) <= window then [s[0]] else [];
      RecentAppend(first, Recent(s[1..], then', window), now, window);
      assert first != [] ==> first[1..] == [];
    }
  }

  lemma {:induction false} RecentAll(s: seq<Sample>, now: nat, window: nat)
    requires forall i :: 0 <= i < |s| ==> Since(now, s[i].at) <= window
    ensures Recent(s, now, window) == s
  {
    if s != [] { RecentAll(s[1..], now, window); }
  }

  /** Dropping from the front is filtering, because samples are in time order. */
  lemma {:induction false} PruneIsRecent(s: seq<Sample>, now: nat, window: nat)
    requires Sorted(s)
    ensures Prune(s, now, window) == Recent(s, now, window)
  {
    if s != [] {
      if Since(now, s[0].at) > window {
        PruneIsRecent(s[1..], now, window);
      } else {
        forall i | 0 <= i < |s| ensures Since(now, s[i].at) <= window {
          assert i > 0 ==> s[0].at <= s[i].at;
        }
        RecentAll(s, now, window);
      }
    }
  }

  lemma {:induction false} RecentSorted(s: seq<Sample>, now: nat, window: nat)
    requires Sorted(s)
    ensures Sorted(Recent(s, now, window))
    ensures forall x :: x in Recent(s, now, window) ==> x in s
  {
    if s != [] {
      RecentSorted(s[1..], now, window);
      var rest := Recent(s[1..], now, window);
      forall i | 0 <= i < |rest| ensures s[0].at <= rest[i].at {
        assert rest[i] in rest && rest[i] in s[1..];
      }
    }
  }

  // ---------------------------------------------------------------- refinement

  /** Samples taken by `now`, in time order. */
  predicate Past(s: seq<Sample>, now: nat) {
    Sorted(s) && forall i :: 0 <= i < |s| ==> s[i].at <= now
  }

  lemma {:induction false} SamplesNow(now: nat, processes: seq<Process>, pid: Pid)
    ensures forall i :: 0 <= i < |SamplesIn(now, processes, pid)| ==> SamplesIn(now, processes, pid)[i].at == now
    ensures pid in Pids(processes) <==> SamplesIn(now, processes, pid) != []
  {
    if processes != [] {
      SamplesNow(now, processes[..|processes| - 1], pid);
    }
  }

  /** One push of a pid whose window is exact: the window stays exact. */
  lemma PushExact(full: seq<Sample>, held: seq<Sample>, then': nat, now: nat, window: nat, p: Process)
    requires Past(full, now) && then' <= now && held == Recent(full, then', window)
    ensures Prune(held + [SampleOf(now, p)], now, window) == Recent(full + [SampleOf(now, p)], now, window)
  {
    var s := SampleOf(now, p);
    RecentSorted(full, then', window);
    forall i | 0 <= i < |held| ensures held[i].at <= now {
      assert held[i] in held && held[i] in full;
    }
    PruneIsRecent(held + [s], now, window);
    RecentAppend(held, [s], now, window);
    RecentAppend(full, [s], now, window);
    RecentAgain(full, then', now, window);
  }

  /** The last push of a record, seen from one pid. */
  lemma LastPush(history: History, window: nat, now: nat, processes: seq<Process>, pid: Pid)
    requires processes != []
    ensures var before, p := processes[..|processes| - 1], processes[|processes| - 1];
            var was, after := PushAll(history, window, now, before), PushAll(history, window, now, processes);
            && (pid in Pids(processes) <==> pid in Pids(before) || p.pid == pid)
            && (pid in after <==> pid in was || p.pid == pid)
            && Of(after, pid)
               == (if p.pid == pid then Prune(Of(was, pid) + [SampleOf(now, p)], now, window) else Of(was, pid))
            && SamplesIn(now, processes, pid)
               == SamplesIn(now, before, pid) + if p.pid == pid then [SampleOf(now, p)] else []
  {
    PidsNext(processes, |processes| - 1);
    hide Prune, Pids;
  }

  lemma NoPushes(history: History, window: nat, now: nat, pid: Pid)
    ensures PushAll(history, window, now, []) == history && SamplesIn(now, [], pid) == [] && pid !in Pids([])
  {
  }

  /** A record's pushes, seen from one pid whose window was exact before. */
  lemma {:induction false} PushAllExact(
      history: History, window: nat, then': nat, now: nat, processes: seq<Process>, pid: Pid, full: seq<Sample>)
    requires Past(full, now) && then' <= now && Of(history, pid) == Recent(full, then', window)
    ensures var after, added := PushAll(history, window, now, processes), SamplesIn(now, processes, pid);
            && Past(full + added, now)
            && Of(after, pid) == Recent(full + added, if added == [] then then' else now, window)
            && (pid in after <==> pid in history || pid in Pids(processes))
  {
    hide Prune, Recent, Sorted, Past, Since, PushAll, SamplesIn, Pids, Of;
    assert full + [] == full;
    if processes == [] {
      NoPushes(history, window, now, pid);
    } else {
      var p, others := processes[|processes| - 1], processes[..|processes| - 1];
      PushAllExact(history, window, then', now, others, pid, full);
      LastPush(history, window, now, processes, pid);
      var before := SamplesIn(now, others, pid);
      if p.pid == pid {
        var since := if before == [] then then' else now;
        PushExact(full + before, Recent(full + before, since, window), since, now, window, p);
        assert full + before + [SampleOf(now, p)] == full + SamplesIn(now, processes, pid);
        PastNext(full + before, SampleOf(now, p), now);
      } else {
        assert before + [] == before;
      }
    }
  }

  lemma PastNext(s: seq<Sample>, x: Sample, now: nat)
    requires Past(s, now) && x.at == now
    ensures Past(s + [x], now)
  {
  }

  lemma PastLater(s: seq<Sample>, then': nat, now: nat)
    requires then' <= now
    ensures Past(s, then') ==> Past(s, now)
    ensures Past([], now)
  {
  }

  lemma OrderBefore(log: seq<Observation>)
    requires |log| > 1 && InOrder(log)
    ensures InOrder(log[..|log| - 1]) && log[|log| - 2].at <= log[|log| - 1].at
  {
  }

  /** The window and the history of one pid, kept or started afresh by a new record. */
  lemma RecordsTail(window: nat, log: seq<Observation>, pid: Pid)
    requires log != []
    ensures var before, last := log[..|log| - 1], log[|log| - 1];
            var history, kept := Run(window, before), pid in Pids(last.processes);
            var retained := Retained(history, last.processes);
            && Run(window, log) == PushAll(retained, window, last.at, last.processes)
            && (pid in retained <==> kept && pid in history)
            && Of(retained, pid) == (if kept then Of(history, pid) else [])
            && Full(log, pid) == if kept then Full(before, pid) + SamplesIn(last.at, last.processes, pid) else []
  {
    hide PushAll, SamplesIn, Pids;
  }

  lemma NothingYet(window: nat, pid: Pid, now: nat)
    ensures Run(window, []) == map[] && Of(map[], pid) == [] && Full([], pid) == [] && Recent([], now, window) == []
  {
  }

  /** After any run of records in time order, each window holds exactly the samples of its pid
      since the pid's last absence that are no older than the window, and there is a window
      for exactly the pids of the last record. */
  lemma {:induction false} WindowsExact(window: nat, log: seq<Observation>, pid: Pid)
    requires log != [] && InOrder(log)
    ensures var now := log[|log| - 1].at;
            && Past(Full(log, pid), now)
            && Of(Run(window, log), pid) == Recent(Full(log, pid), now, window)
            && (pid in Run(window, log) <==> pid in Pids(log[|log| - 1].processes))
  {
    hide InOrder, Run, Full, Recent, Retained, PushAll, SamplesIn, Pids, Of, Past;
    var before, last := log[..|log| - 1], log[|log| - 1];
    var then' := if before == [] then last.at else before[|before| - 1].at;
    if before != [] {
      OrderBefore(log);
      WindowsExact(window, before, pid);
    }
    NothingYet(window, pid, then');
    NothingYet(window, pid, last.at);
    RecordsTail(window, log, pid);
    SamplesNow(last.at, last.processes, pid);
    var full := if pid in Pids(last.processes) then Full(before, pid) else [];
    PastLater(full, then', last.at);
    PushAllExact(
      Retained(Run(window, before), last.processes), window, then', last.at, last.processes, pid, full);
    assert full + [] == full;
  }

  /** The sample just taken is always in the window: no average divides by zero, and every
      statistic is that of the unpruned history filtered by age. */
  lemma StatsExact(window: nat, log: seq<Observation>, pid: Pid)
    requires log != [] && InOrder(log)
    ensures var now := log[|log| - 1].at;
            var stats := StatsMap(Run(window, log), now);
            && (pid in stats <==> pid in Pids(log[|log| - 1].processes))
            && (pid in stats ==>
                  var recent := Recent(Full(log, pid), now, window);
                  recent != [] && stats[pid] == StatsOf(recent, now) && stats[pid].samples == |recent|)
  {
    WindowsExact(window, log, pid);
    var last := log[|log| - 1];
    if pid in Pids(last.processes) {
      SamplesNow(last.at, last.processes, pid);
      var added := SamplesIn(last.at, last.processes, pid);
      RecentAppend(Full(log[..|log| - 1], pid), added, last.at, window);
      RecentAll(added, last.at, window);
    }
  }

  /** A sample in the history means its pid was observed ever since. */
  lemma {:induction false} PresentSince(log: seq<Observation>, pid: Pid, s: Sample) returns (k: nat)
    requires s in Full(log, pid)
    ensures k < |log| && log[k].at == s.at
    ensures forall j :: k <= j < |log| ==> pid in Pids(log[j].processes)
  {
    var last := |log| - 1;
    if s in Full(log[..last], pid) {
      k := PresentSince(log[..last], pid, s);
      forall j | k <= j < |log| ensures pid in Pids(log[j].processes) {
        assert j < last ==> log[..last][j] == log[j];
      }
    } else {
      SamplesNow(log[last].at, log[last].processes, pid);
      k := last;
    }
  }

  /** A window that spans `span` means its pid was in every list observed over that long. */
  lemma SpanMeansPresence(window: nat, log: seq<Observation>, pid: Pid, span: nat) returns (k: nat)
    requires log != [] && InOrder(log) && span > 0
    requires var stats := StatsMap(Run(window, log), log[|log| - 1].at); pid in stats && stats[pid].span >= span
    ensures k < |log| && log[k].at + span <= log[|log| - 1].at
    ensures forall j :: k <= j < |log| ==> pid in Pids(log[j].processes)
  {
    var now := log[|log| - 1].at;
    StatsExact(window, log, pid);
    WindowsExact(window, log, pid);
    var recent := Recent(Full(log, pid), now, window);
    RecentSorted(Full(log, pid), now, window);
    assert recent[0] in recent;
    k := PresentSince(log, pid, recent[0]);
  }

  // ---------------------------------------------------------------- said of the samples alone

  /** Sums go sample by sample, and the footprints are those of the samples that carry one. */
  lemma {:induction false} SumsAdd(samples: seq<Sample>, s: Sample)
    ensures CpuTotal([]) == 0.0 && CpuTotal(samples + [s]) == CpuTotal(samples) + s.cpu
    ensures MemoryTotal([]) == 0 && MemoryTotal(samples + [s]) == MemoryTotal(samples) + s.memory
    ensures Footprints([]) == []
    ensures Footprints(samples + [s]) == Footprints(samples) + if s.footprint.Some? then [s.footprint.value] else []
  {
    assert (samples + [s])[..|samples|] == samples;
  }

  lemma {:induction false} TotalAdds(values: seq<nat>, v: nat)
    ensures Total([]) == 0 && Total(values + [v]) == Total(values) + v
  {
    assert (values + [v])[..|values|] == values;
  }

  /** The history of a pid, list by list: nothing once a list lacks it; and one more sample, as
      the list has it, for each list that has it once. */
  lemma FullGrows(log: seq<Observation>, o: Observation, pid: Pid, j: nat)
    ensures Full([], pid) == []
    ensures (forall k :: 0 <= k < |o.processes| ==> o.processes[k].pid != pid) ==> Full(log + [o], pid) == []
    ensures j < |o.processes| && o.processes[j].pid == pid
            && (forall k :: 0 <= k < |o.processes| && k != j ==> o.processes[k].pid != pid) ==>
              var p := o.processes[j];
              Full(log + [o], pid) == Full(log, pid) + [Sample(o.at, p.cpu, p.memory, p.footprint, p.cpuTime)]
  {
    assert (log + [o])[..|log|] == log;
    if j < |o.processes| && o.processes[j].pid == pid
       && (forall k :: 0 <= k < |o.processes| && k != j ==> o.processes[k].pid != pid)
    {
      OneSample(o.at, o.processes, pid, j);
    }
  }

  lemma {:induction false} OneSample(now: nat, processes: seq<Process>, pid: Pid, j: nat)
    requires forall k :: 0 <= k < |processes| ==> (processes[k].pid == pid <==> k == j)
    ensures SamplesIn(now, processes, pid) == if j < |processes| then [SampleOf(now, processes[j])] else []
  {
    if processes != [] {
      OneSample(now, processes[..|processes| - 1], pid, j);
    }
  }
}
