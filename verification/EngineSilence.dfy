/** When the engine is silent about something over its bar: only because it has told of it since
    it was last under, or told of something about it within the cooldown; and what stays over
    its bar is followed up. */
module EngineSilence {
  import opened Bytes
  import opened Matching
  import opened ActiveThresholds
  import opened Rolling
  import Ep = Episodes
  import P = Pressure
  import opened Engine
  import opened EngineRuns
  import opened EngineHeard

  /** Every verdict of the last evaluation, in the order they are taken. */
  function VerdictsNow(inputs: seq<Input>): seq<Verdict>
    requires inputs != []
  {
    var i, was := inputs[|inputs| - 1], RunState(inputs[..|inputs| - 1]);
    (if AppsEvaluated(i.snap, i.a) then AppVerdictsAt(was, i.now, i.snap, i.a) else [])
    + if i.snap.processes.Some? then ProcessVerdictsAt(was, i.now, i.snap, i.a) else []
  }

  /** The `m`th evaluation judged the key under its bar. */
  predicate FoundUnder(inputs: seq<Input>, key: Ep.Key, m: nat) {
    m < |inputs| && Under(key) in VerdictsNow(inputs[..m + 1])
  }

  /** What the last evaluation did to the book. */
  function ActsNow(inputs: seq<Input>): seq<Ep.Act>
    requires inputs != []
  {
    var i, was := inputs[|inputs| - 1], RunState(inputs[..|inputs| - 1]);
    AppActs(was, i.now, i.snap, i.a) + ProcessActs(was, i.now, i.snap, i.a)
  }

  // ---------------------------------------------------------------- verdicts and acts

  lemma {:induction false} LapsesOfVerdicts(vs: seq<Verdict>, key: Ep.Key, now: nat, cooldown: nat)
    ensures Ep.OnKey(key, Ep.Lapses(now)) in ActsOf(vs, now, cooldown) <==> Under(key) in vs
  {
    if vs != [] {
      var last := |vs| - 1;
      LapsesOfVerdicts(vs[..last], key, now, cooldown);
      assert vs == vs[..last] + [vs[last]];
    }
  }

  lemma {:induction false} HoldsOfVerdicts(vs: seq<Verdict>, v: Verdict, now: nat, cooldown: nat)
    requires v in vs && v.Above?
    ensures Ep.OnKey(v.key, Ep.Holds(now, cooldown)) in ActsOf(vs, now, cooldown)
  {
    var last := |vs| - 1;
    assert vs == vs[..last] + [vs[last]];
    if v in vs[..last] { HoldsOfVerdicts(vs[..last], v, now, cooldown); }
  }

  lemma {:induction false} ActsAreJudgements(vs: seq<Verdict>, now: nat, cooldown: nat)
    ensures forall act :: act in ActsOf(vs, now, cooldown) ==> act.OnKey?
  {
    if vs != [] { ActsAreJudgements(vs[..|vs| - 1], now, cooldown); }
  }

  lemma LapsesNow(inputs: seq<Input>, key: Ep.Key)
    requires inputs != []
    ensures Ep.OnKey(key, Ep.Lapses(inputs[|inputs| - 1].now)) in ActsNow(inputs) <==> Under(key) in VerdictsNow(inputs)
  {
    hide RunState, AppVerdictsAt, ProcessVerdictsAt, StatsMap, AppsAfter, WindowAfter, ActsOf, AppsEvaluated;
    var i, was := inputs[|inputs| - 1], RunState(inputs[..|inputs| - 1]);
    if AppsEvaluated(i.snap, i.a) {
      LapsesOfVerdicts(AppVerdictsAt(was, i.now, i.snap, i.a), key, i.now, i.a.cooldown);
    }
    if i.snap.processes.Some? {
      LapsesOfVerdicts(ProcessVerdictsAt(was, i.now, i.snap, i.a), key, i.now, i.a.cooldown);
    }
  }

  lemma ActsGrow(inputs: seq<Input>)
    requires inputs != []
    ensures Acts(inputs) == Acts(inputs[..|inputs| - 1]) + ActsNow(inputs)
    ensures Dated(ActsNow(inputs), inputs[|inputs| - 1].now, inputs[|inputs| - 1].a.cooldown)
  {
    hide Acts, RunState, AppActs, ProcessActs, Dated;
    ActsNext(inputs);
    RoundDated(RunState(inputs[..|inputs| - 1]), inputs[|inputs| - 1]);
  }

  /** Finding a key under its bar is a lapse of its condition at that time. */
  lemma {:induction false} FoundIsLapse(inputs: seq<Input>, key: Ep.Key, m: nat)
    requires FoundUnder(inputs, key, m)
    ensures Ep.OnKey(key, Ep.Lapses(inputs[m].now)) in Acts(inputs)
  {
    hide Acts, ActsNow, VerdictsNow, Dated;
    ActsGrow(inputs);
    if m == |inputs| - 1 {
      assert inputs[..m + 1] == inputs;
      LapsesNow(inputs, key);
    } else {
      assert inputs[..|inputs| - 1][..m + 1] == inputs[..m + 1];
      FoundIsLapse(inputs[..|inputs| - 1], key, m);
    }
  }

  /** And nothing else is. */
  lemma {:induction false} LapseIsFound(inputs: seq<Input>, key: Ep.Key, at: nat) returns (m: nat)
    requires Ep.OnKey(key, Ep.Lapses(at)) in Acts(inputs)
    ensures FoundUnder(inputs, key, m) && inputs[m].now == at
  {
    NoActs();
    hide Acts, ActsNow, VerdictsNow;
    ActsGrow(inputs);
    var before := inputs[..|inputs| - 1];
    if Ep.OnKey(key, Ep.Lapses(at)) in Acts(before) {
      m := LapseIsFound(before, key, at);
      assert before[..m + 1] == inputs[..m + 1];
    } else {
      m := |inputs| - 1;
      var j :| 0 <= j < |ActsNow(inputs)| && ActsNow(inputs)[j] == Ep.OnKey(key, Ep.Lapses(at));
      LapsesNow(inputs, key);
      assert inputs[..m + 1] == inputs;
    }
  }

  lemma NoActs()
    ensures Acts([]) == []
  {
  }

  // ---------------------------------------------------------------- what a key's last act was

  lemma AppKeys(g: Group, stats: map<Pid, Stats>, a: Active, total: nat)
    ensures var v := AppCpuVerdict(g, stats, a); !v.Unjudged? ==> Ep.IsAppKind(v.key.kind)
    ensures var v := AppMemoryVerdict(g, stats, a, total); !v.Unjudged? ==> Ep.IsAppKind(v.key.kind)
  {
    hide ForProcess, AppMemoryBar, AsU64, HeldBytes, MemShare;
  }

  lemma ProcessKeys(p: Process, fast: map<Pid, Stats>, slow: map<Pid, Stats>, a: Active, total: nat)
    ensures var v := CpuVerdict(p, fast, slow, a); !v.Unjudged? ==> !Ep.IsAppKind(v.key.kind)
    ensures var v := MemoryVerdict(p, fast, slow, a, total); !v.Unjudged? ==> !Ep.IsAppKind(v.key.kind)
  {
    hide ForProcess, MemoryBar, AsU64, HeldBytes, MemShare;
  }

  lemma AppVerdictKeys(gs: seq<Group>, stats: map<Pid, Stats>, a: Active, total: nat, v: Verdict)
    requires v in AppVerdicts(gs, stats, a, total) && !v.Unjudged?
    ensures Ep.IsAppKind(v.key.kind)
  {
    hide AppCpuVerdict, AppMemoryVerdict, Ep.IsAppKind;
    var vs := AppVerdicts(gs, stats, a, total);
    var n :| 0 <= n < |vs| && vs[n] == v;
    AppKeys(gs[n / 2], stats, a, total);
  }

  lemma ProcessVerdictKeys(
      ps: seq<Process>, fast: map<Pid, Stats>, slow: map<Pid, Stats>, a: Active, total: nat, v: Verdict)
    requires v in ProcessVerdicts(ps, fast, slow, a, total) && !v.Unjudged?
    ensures !Ep.IsAppKind(v.key.kind)
  {
    hide CpuVerdict, MemoryVerdict, Ep.IsAppKind;
    var vs := ProcessVerdicts(ps, fast, slow, a, total);
    var n :| 0 <= n < |vs| && vs[n] == v;
    ProcessKeys(ps[n / 2], fast, slow, a, total);
  }

  /** From `n` on the acts hold the key's condition and do not forget the key. */
  predicate HoldsFrom(acts: seq<Ep.Act>, key: Ep.Key, n: nat, now: nat, cooldown: nat) {
    && n < |acts| && acts[n] == Ep.OnKey(key, Ep.Holds(now, cooldown))
    && forall j :: n <= j < |acts| ==> !Ep.Drops(acts[j], key)
  }

  lemma HoldsFromLater(a: seq<Ep.Act>, b: seq<Ep.Act>, key: Ep.Key, n: nat, now: nat, cooldown: nat)
    requires HoldsFrom(b, key, n, now, cooldown)
    ensures HoldsFrom(a + b, key, |a| + n, now, cooldown)
  {
    forall j | |a| + n <= j < |a + b| ensures !Ep.Drops((a + b)[j], key) { assert (a + b)[j] == b[j - |a|]; }
  }

  lemma HoldsFromStill(a: seq<Ep.Act>, b: seq<Ep.Act>, key: Ep.Key, n: nat, now: nat, cooldown: nat)
    requires HoldsFrom(a, key, n, now, cooldown) && forall act :: act in b ==> !Ep.Drops(act, key)
    ensures HoldsFrom(a + b, key, n, now, cooldown)
  {
    forall j | n <= j < |a + b| ensures !Ep.Drops((a + b)[j], key) {
      if j >= |a| { assert (a + b)[j] == b[j - |a|] && b[j - |a|] in b; }
    }
  }

  /** A pass that judges a key over its bar holds its condition. */
  lemma PassHolds(drop: Ep.Act, vs: seq<Verdict>, v: Verdict, now: nat, cooldown: nat) returns (n: nat)
    requires v in vs && v.Above?
    ensures HoldsFrom([drop] + ActsOf(vs, now, cooldown), v.key, n, now, cooldown)
  {
    HoldsOfVerdicts(vs, v, now, cooldown);
    ActsAreJudgements(vs, now, cooldown);
    hide ActsOf;
    var acts := ActsOf(vs, now, cooldown);
    n :| 0 <= n < |acts| && acts[n] == Ep.OnKey(v.key, Ep.Holds(now, cooldown));
    assert HoldsFrom(acts, v.key, n, now, cooldown) by {
      forall j | n <= j < |acts| ensures !Ep.Drops(acts[j], v.key) { assert acts[j] in acts; }
    }
    HoldsFromLater([drop], acts, v.key, n, now, cooldown);
    n := 1 + n;
  }

  lemma ProcessPassKeepsApps(st: State, i: Input, key: Ep.Key)
    requires Ep.IsAppKind(key.kind)
    ensures forall act :: act in ProcessActs(st, i.now, i.snap, i.a) ==> !Ep.Drops(act, key)
  {
    hide ProcessVerdictsAt, StatsMap, WindowAfter, ActsOf;
    if i.snap.processes.Some? {
      ActsAreJudgements(ProcessVerdictsAt(st, i.now, i.snap, i.a), i.now, i.a.cooldown);
    }
  }

  lemma EvaluationHolds(inputs: seq<Input>, v: Verdict) returns (n: nat)
    requires inputs != [] && v in VerdictsNow(inputs) && v.Above?
    ensures HoldsFrom(ActsNow(inputs), v.key, n, inputs[|inputs| - 1].now, inputs[|inputs| - 1].a.cooldown)
  {
    hide RunState, AppVerdicts, ProcessVerdicts, StatsMap, AppsAfter, WindowAfter, ActsOf, HoldsFrom, Ep.IsAppKind,
         Ep.Drops;
    var i, was := inputs[|inputs| - 1], RunState(inputs[..|inputs| - 1]);
    var apps, processes := AppActs(was, i.now, i.snap, i.a), ProcessActs(was, i.now, i.snap, i.a);
    if AppsEvaluated(i.snap, i.a) && v in AppVerdictsAt(was, i.now, i.snap, i.a) {
      var stats := StatsMap(AppsAfter(was, i.now, i.snap, i.a), i.now);
      AppVerdictKeys(i.snap.groups.value, stats, i.a, i.snap.totalMemory, v);
      n := PassHolds(Ep.Apps(stats.Keys), AppVerdictsAt(was, i.now, i.snap, i.a), v, i.now, i.a.cooldown);
      ProcessPassKeepsApps(was, i, v.key);
      HoldsFromStill(apps, processes, v.key, n, i.now, i.a.cooldown);
    } else {
      var fast := StatsMap(WindowAfter(was.fast, P.WINDOW, i.now, i.snap), i.now);
      n := PassHolds(Ep.Processes(fast.Keys), ProcessVerdictsAt(was, i.now, i.snap, i.a), v, i.now, i.a.cooldown);
      HoldsFromLater(apps, processes, v.key, n, i.now, i.a.cooldown);
      n := |apps| + n;
    }
  }

  /** Then the last thing done with the key was to hold its condition. */
  lemma {:induction false} LastIsHolds(
      acts: seq<Ep.Act>, more: seq<Ep.Act>, key: Ep.Key, n: nat, now: nat, cooldown: nat)
    requires HoldsFrom(more, key, n, now, cooldown)
    requires Dated(more, now, cooldown) && Ep.OnKey(key, Ep.Lapses(now)) !in more
    ensures var ops := Ep.OpsOf(acts + more, key); ops != [] && ops[|ops| - 1] == Ep.Holds(now, cooldown)
  {
    hide Ep.OpsOf, Ep.Drops;
    var last := |more| - 1;
    assert acts + more == (acts + more[..last]) + [more[last]];
    OpsNext(acts + more[..last], more[last], key);
    if n < last {
      LastIsHolds(acts, more[..last], key, n, now, cooldown);
    }
    assert more[last] in more;
  }

  lemma HoldsNow(inputs: seq<Input>, v: Verdict)
    requires inputs != [] && v in VerdictsNow(inputs) && v.Above? && Under(v.key) !in VerdictsNow(inputs)
    ensures var ops, i := Ep.OpsOf(Acts(inputs), v.key), inputs[|inputs| - 1];
            ops != [] && ops[|ops| - 1] == Ep.Holds(i.now, i.a.cooldown)
  {
    hide Acts, ActsNow, VerdictsNow, Dated, HoldsFrom, Ep.OpsOf;
    var i := inputs[|inputs| - 1];
    ActsGrow(inputs);
    LapsesNow(inputs, v.key);
    var n := EvaluationHolds(inputs, v);
    LastIsHolds(Acts(inputs[..|inputs| - 1]), ActsNow(inputs), v.key, n, i.now, i.a.cooldown);
  }

  // ---------------------------------------------------------------- times and positions

  lemma {:induction false} OpIsAct(acts: seq<Ep.Act>, key: Ep.Key)
    ensures forall op :: op in Ep.OpsOf(acts, key) ==> Ep.OnKey(key, op) in acts
  {
    hide Ep.Drops;
    if acts != [] {
      var last := |acts| - 1;
      OpIsAct(acts[..last], key);
      assert acts == acts[..last] + [acts[last]];
    }
  }

  /** A lapse later than some op of its key comes after it. */
  lemma {:induction false} LateLapse(acts: seq<Ep.Act>, key: Ep.Key, j: nat, k: nat, c: nat, now: nat)
    requires Orderly(acts, c, now)
    requires j < |acts| && acts[j].OnKey? && acts[j].key == key && acts[j].op.Lapses?
    requires var ops := Ep.OpsOf(acts, key); k < |ops| && ops[k].at < acts[j].op.at
    ensures Ep.LapsedAfter(Ep.OpsOf(acts, key), k)
  {
    hide Ep.OpsOf, Ep.Drops, Ep.LapsedAfter;
    var last := |acts| - 1;
    var before := acts[..last];
    assert before + [acts[last]] == acts;
    OpsNext(before, acts[last], key);
    var was, ops := Ep.OpsOf(before, key), Ep.OpsOf(acts, key);
    assert was + [] == was;
    if k == |was| {
      assert false;
    } else if j == last {
      LapsedLast(ops, k);
    } else {
      OrderlyBefore(acts, c, now);
      hide Orderly;
      LateLapse(before, key, j, k, c, now);
      LapsedStill(was, ops, k);
    }
  }

  lemma OrderlyBefore(acts: seq<Ep.Act>, c: nat, now: nat)
    requires acts != [] && Orderly(acts, c, now)
    ensures Orderly(acts[..|acts| - 1], c, now)
  {
  }

  lemma LapsedLast(ops: seq<Ep.Op>, k: nat)
    requires k < |ops| - 1 && ops[|ops| - 1].Lapses?
    ensures Ep.LapsedAfter(ops, k)
  {
  }

  lemma LapsedStill(was: seq<Ep.Op>, ops: seq<Ep.Op>, k: nat)
    requires was <= ops && Ep.LapsedAfter(was, k)
    ensures Ep.LapsedAfter(ops, k)
  {
    var p :| k < p < |was| && was[p].Lapses?;
    assert ops[p] == was[p];
  }

  lemma {:induction false} NotesAreOps(ops: seq<Ep.Op>)
    ensures forall n :: 0 <= n < |Ep.RunKey(ops).notes| ==>
              var note := Ep.RunKey(ops).notes[n]; note.pos < |ops| && ops[note.pos].at == note.at
  {
    hide Ep.Decide, Ep.Applied;
    if ops != [] { NotesAreOps(ops[..|ops| - 1]); }
  }

  /** No evaluation later than `t` found the key under its bar. */
  predicate UnderOnlyBy(inputs: seq<Input>, key: Ep.Key, t: nat) {
    forall m :: 0 <= m < |inputs| && FoundUnder(inputs, key, m) ==> inputs[m].now <= t
  }

  /** Every evaluation that found the key under its bar is earlier than `t`. */
  predicate UnderOnlyBefore(inputs: seq<Input>, key: Ep.Key, t: nat) {
    forall m :: 0 <= m < |inputs| && FoundUnder(inputs, key, m) ==> inputs[m].now < t
  }

  lemma {:induction false} FoundIsBy(inputs: seq<Input>, key: Ep.Key, pos: nat, m: nat)
    requires InTime(inputs) && FoundUnder(inputs, key, m)
    requires var ops := Ep.OpsOf(Acts(inputs), key); pos < |ops| && !Ep.LapsedAfter(ops, pos)
    ensures inputs[m].now <= Ep.OpsOf(Acts(inputs), key)[pos].at
  {
    var under := inputs[m].now;
    hide InTime, Acts, FoundUnder, Ep.OpsOf, Ep.LapsedAfter, Orderly;
    RunOrderly(inputs, 0);
    FoundIsLapse(inputs, key, m);
    var acts := Acts(inputs);
    var j :| 0 <= j < |acts| && acts[j] == Ep.OnKey(key, Ep.Lapses(under));
    if Ep.OpsOf(acts, key)[pos].at < under {
      LateLapse(acts, key, j, pos, 0, inputs[|inputs| - 1].now);
    }
  }

  /** If a key's condition has not lapsed since an op, no verdict under the bar came later. */
  lemma UnlapsedIsLatest(inputs: seq<Input>, key: Ep.Key, ops: seq<Ep.Op>, pos: nat)
    requires InTime(inputs) && ops == Ep.OpsOf(Acts(inputs), key) && pos < |ops| && !Ep.LapsedAfter(ops, pos)
    ensures UnderOnlyBy(inputs, key, ops[pos].at)
  {
    hide InTime, Acts, VerdictsNow, Ep.OpsOf, Ep.LapsedAfter;
    forall m: nat | FoundUnder(inputs, key, m) ensures inputs[m].now <= ops[pos].at {
      FoundIsBy(inputs, key, pos, m);
    }
  }

  lemma {:induction false} LapsedOpIsFound(inputs: seq<Input>, key: Ep.Key, op: Ep.Op) returns (m: nat)
    requires op in Ep.OpsOf(Acts(inputs), key) && op.Lapses?
    ensures FoundUnder(inputs, key, m) && inputs[m].now == op.at
  {
    hide Acts, VerdictsNow, Ep.OpsOf;
    OpIsAct(Acts(inputs), key);
    m := LapseIsFound(inputs, key, op.at);
  }

  /** And if every verdict under the bar came strictly earlier, the condition has not lapsed. */
  lemma {:induction false} EarlierIsUnlapsed(inputs: seq<Input>, key: Ep.Key, ops: seq<Ep.Op>, pos: nat)
    requires ops == Ep.OpsOf(Acts(inputs), key) && Ep.InTime(ops) && pos < |ops|
    requires UnderOnlyBefore(inputs, key, ops[pos].at)
    ensures !Ep.LapsedAfter(ops, pos)
  {
    hide Acts, VerdictsNow, Ep.OpsOf;
    if p :| pos < p < |ops| && ops[p].Lapses? {
      var m := LapsedOpIsFound(inputs, key, ops[p]);
    }
  }

  // ---------------------------------------------------------------- silence and follow-ups

  /** The last event about a key is its last note. */
  lemma {:induction false} LastHeard(inputs: seq<Input>, key: Ep.Key, ops: seq<Ep.Op>)
    requires InTime(inputs) && ops == Ep.OpsOf(Acts(inputs), key) && Ep.RunKey(ops).notes != []
    ensures Ep.InTime(ops)
    ensures var hs, notes := HeardSince(inputs, key), Ep.RunKey(ops).notes;
            var last := notes[|notes| - 1];
            && hs != [] && hs[|hs| - 1] == Heard(last.at, Ep.Elapsed(last.what))
            && last.pos < |ops| && ops[last.pos].at == last.at
  {
    hide InTime, Acts, HeardSince, Ep.OpsOf, Ep.RunKey, Ep.InTime;
    HeardIsNotes(inputs, key);
    RunNotes(inputs, key, 0);
    NotesAreOps(ops);
  }

  /** The condition of a verdict over its bar holds, and its key has a note. */
  lemma {:induction false} AboveIsNoted(inputs: seq<Input>, v: Verdict, ops: seq<Ep.Op>)
    requires inputs != [] && InTime(inputs)
    requires v in VerdictsNow(inputs) && v.Above? && Under(v.key) !in VerdictsNow(inputs)
    requires ops == Ep.OpsOf(Acts(inputs), v.key)
    ensures Ep.InTime(ops) && ops != []
    ensures var i := inputs[|inputs| - 1]; ops[|ops| - 1] == Ep.Holds(i.now, i.a.cooldown)
    ensures var notes, i := Ep.RunKey(ops).notes, inputs[|inputs| - 1];
            && notes != []
            && (!Ep.LapsedAfter(ops, notes[|notes| - 1].pos) || i.now - notes[|notes| - 1].at < i.a.cooldown)
  {
    hide InTime, Acts, VerdictsNow, Ep.OpsOf, Ep.RunKey, Ep.InTime, Ep.LapsedAfter;
    RunNotes(inputs, v.key, 0);
    HoldsNow(inputs, v);
    Ep.HoldingIsTold(ops);
  }

  /** While something is judged over its bar, and not under it too as a pid listed twice may be,
      it has been told of; and either nothing found it under the bar later than what was told
      last, or that is within the cooldown. */
  lemma {:induction false} SilenceIsExplained(inputs: seq<Input>, v: Verdict)
    requires inputs != [] && InTime(inputs)
    requires v in VerdictsNow(inputs) && v.Above? && Under(v.key) !in VerdictsNow(inputs)
    ensures var hs, i := HeardSince(inputs, v.key), inputs[|inputs| - 1];
            && hs != []
            && (UnderOnlyBy(inputs, v.key, hs[|hs| - 1].at) || i.now - hs[|hs| - 1].at < i.a.cooldown)
  {
    hide InTime, VerdictsNow, UnderOnlyBy, HeardSince, Acts, Ep.OpsOf, Ep.RunKey, Ep.LapsedAfter, Ep.InTime;
    var ops := Ep.OpsOf(Acts(inputs), v.key);
    AboveIsNoted(inputs, v, ops);
    LastHeard(inputs, v.key, ops);
    var notes := Ep.RunKey(ops).notes;
    if !Ep.LapsedAfter(ops, notes[|notes| - 1].pos) {
      UnlapsedIsLatest(inputs, v.key, ops, notes[|notes| - 1].pos);
    }
  }

  /** A crossing whose condition has held ever since is the last note for less than half an
      hour. */
  lemma {:induction false} StillActive(ops: seq<Ep.Op>)
    requires Ep.InTime(ops) && ops != [] && ops[|ops| - 1].Holds?
    requires var notes := Ep.RunKey(ops).notes;
             && notes != [] && notes[|notes| - 1].what == Ep.New
             && !Ep.LapsedAfter(ops, notes[|notes| - 1].pos)
    ensures var notes := Ep.RunKey(ops).notes; ops[|ops| - 1].at < notes[|notes| - 1].at + Ep.PERSIST_REMINDER
  {
    Ep.NotesFollow(ops);
    hide Ep.RunKey, Ep.LapsedAfter, Ep.Follows, Ep.InTime;
    var entry := Ep.RunKey(ops).entry;
    if entry.active.Some? && ops[|ops| - 1].at >= entry.active.value.started + Ep.PERSIST_REMINDER {
      Ep.FollowUpComes(ops);
    }
  }

  /** And what has stayed over its bar since a crossing was told is followed up: after half an
      hour the last thing told is no longer that crossing. */
  lemma {:induction false} FollowUpIsHeard(inputs: seq<Input>, v: Verdict)
    requires inputs != [] && InTime(inputs)
    requires v in VerdictsNow(inputs) && v.Above? && Under(v.key) !in VerdictsNow(inputs)
    ensures var hs, i := HeardSince(inputs, v.key), inputs[|inputs| - 1];
            && hs != []
            && (UnderOnlyBefore(inputs, v.key, hs[|hs| - 1].at) && i.now >= hs[|hs| - 1].at + 30 * 60 * SECOND ==>
                  hs[|hs| - 1].repeatAfter.Some?)
  {
    hide InTime, VerdictsNow, UnderOnlyBefore, HeardSince, Acts, Ep.OpsOf, Ep.RunKey, Ep.LapsedAfter, Ep.InTime;
    var ops := Ep.OpsOf(Acts(inputs), v.key);
    AboveIsNoted(inputs, v, ops);
    LastHeard(inputs, v.key, ops);
    var notes := Ep.RunKey(ops).notes;
    var last := notes[|notes| - 1];
    if last.what == Ep.New && UnderOnlyBefore(inputs, v.key, last.at) {
      EarlierIsUnlapsed(inputs, v.key, ops, last.pos);
      StillActive(ops);
    }
  }
}
