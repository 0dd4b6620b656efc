/** What a run of the engine tells about one process or application and one rule: its events,
    in order, since the key was last forgotten, are exactly the notes of the key's episodes. */
module EngineHeard {
  import opened Bytes
  import opened Matching
  import opened ActiveThresholds
  import opened Rolling
  import Ep = Episodes
  import P = Pressure
  import opened Engine
  import opened EngineRuns

  /** One event about a key: when, and for how long the condition had been told of. */
  datatype Heard = Heard(at: nat, repeatAfter: Option<nat>)

  /** The key that an event is about. */
  function KeyOf(subject: Subject, detail: Detail): Ep.Key {
    match subject
    case OfProcess(pid, _) => Ep.Key(pid, if detail.Cpu? then Ep.CpuKind else Ep.MemoryKind)
    case OfApp(root, _, _) => Ep.Key(root, if detail.Cpu? then Ep.AppCpuKind else Ep.AppMemoryKind)
  }

  predicate IsAbout(e: Event, key: Ep.Key) {
    e.Usage? && KeyOf(e.subject, e.detail) == key
  }

  function About(events: seq<Event>, key: Ep.Key, now: nat): seq<Heard> {
    if events == [] then []
    else
      var last := events[|events| - 1];
      About(events[..|events| - 1], key, now) + if IsAbout(last, key) then [Heard(now, last.repeatAfter)] else []
  }

  /** Whether an evaluation forgets a key: it is of a kind whose list was evaluated, and is not
      in it. */
  predicate Forgotten(i: Input, key: Ep.Key) {
    if key.kind.AppCpuKind? || key.kind.AppMemoryKind? then
      AppsEvaluated(i.snap, i.a) && key.pid !in Pids(AsProcesses(i.snap.groups.value))
    else
      i.snap.processes.Some? && key.pid !in Pids(i.snap.processes.value)
  }

  /** Everything told about a key since it was last forgotten. */
  function HeardSince(inputs: seq<Input>, key: Ep.Key): seq<Heard> {
    if inputs == [] then []
    else
      var i := inputs[|inputs| - 1];
      (if Forgotten(i, key) then [] else HeardSince(inputs[..|inputs| - 1], key)) + About(ToldAt(inputs), key, i.now)
  }

  // ---------------------------------------------------------------- events and notes

  lemma {:induction false} AboutAppend(a: seq<Event>, b: seq<Event>, key: Ep.Key, now: nat)
    ensures About(a + b, key, now) == About(a, key, now) + About(b, key, now)
  {
    hide IsAbout;
    if b == [] {
      assert a + b == a;
    } else {
      assert (a + b)[..|a + b| - 1] == a + b[..|b| - 1];
      AboutAppend(a, b[..|b| - 1], key, now);
    }
  }

  lemma {:induction false} AboutNone(events: seq<Event>, key: Ep.Key, now: nat)
    requires forall e :: e in events ==> !IsAbout(e, key)
    ensures About(events, key, now) == []
  {
    hide IsAbout;
    if events != [] {
      assert events[|events| - 1] in events;
      AboutNone(events[..|events| - 1], key, now);
    }
  }

  lemma AboutOne(e: Event, key: Ep.Key, now: nat)
    ensures About([e], key, now) == if IsAbout(e, key) then [Heard(now, e.repeatAfter)] else []
    ensures About([], key, now) == []
  {
    assert [e][..0] == [];
  }

  function Views(notes: seq<Ep.Note>): (hs: seq<Heard>)
    ensures |hs| == |notes|
    ensures forall i :: 0 <= i < |hs| ==> hs[i] == Heard(notes[i].at, Ep.Elapsed(notes[i].what))
  {
    seq(|notes|, i requires 0 <= i < |notes| => Heard(notes[i].at, Ep.Elapsed(notes[i].what)))
  }

  /** The notes of a key after some acts, as events tell them. */
  function Said(acts: seq<Ep.Act>, key: Ep.Key): seq<Heard> {
    Views(Ep.RunKey(Ep.OpsOf(acts, key)).notes)
  }

  /** A verdict over its bar is on the key that its event is about. */
  predicate Keyed(v: Verdict) {
    v.Above? ==> KeyOf(v.subject, v.detail) == v.key
  }

  predicate AllKeyed(vs: seq<Verdict>) {
    forall i :: 0 <= i < |vs| ==> Keyed(vs[i])
  }

  lemma OpsNext(acts: seq<Ep.Act>, act: Ep.Act, key: Ep.Key)
    ensures Ep.OpsOf(acts + [act], key)
         == if Ep.Drops(act, key) then []
            else Ep.OpsOf(acts, key) + if act.OnKey? && act.key == key then [act.op] else []
  {
    assert (acts + [act])[..|acts|] == acts;
  }

  lemma LapseNotes(ops: seq<Ep.Op>, now: nat)
    ensures Ep.RunKey(ops + [Ep.Lapses(now)]).notes == Ep.RunKey(ops).notes
  {
    assert (ops + [Ep.Lapses(now)])[..|ops|] == ops;
  }

  /** One judgement adds to the notes of a key what its event tells about it. */
  lemma SaidVerdict(acts: seq<Ep.Act>, v: Verdict, key: Ep.Key, now: nat, cooldown: nat)
    requires Keyed(v)
    ensures Said(acts + ActOf(v, now, cooldown), key)
         == Said(acts, key) + About(EventOf(v, Ep.ActAll(Ep.EMPTY, acts), now, cooldown), key, now)
  {
    hide Ep.OpsOf, Ep.RunKey, Ep.ActAll, Ep.Decide;
    var ops := Ep.OpsOf(acts, key);
    match v {
      case Unjudged =>
        assert acts + [] == acts;
        AboutOne(System(P.PressureAlert(0, 0, None)), key, now);
      case Under(k) =>
        OpsNext(acts, Ep.OnKey(k, Ep.Lapses(now)), key);
        LapseNotes(ops, now);
        assert ops + [] == ops;
        AboutOne(System(P.PressureAlert(0, 0, None)), key, now);
      case Above(k, subject, detail) =>
        OpsNext(acts, Ep.OnKey(k, Ep.Holds(now, cooldown)), key);
        assert ops + [] == ops;
        NotesNext(ops, now, cooldown);
        Ep.KeysIndependent(acts, k);
        var decision := Ep.Decide(Ep.Look(Ep.ActAll(Ep.EMPTY, acts), k), now, cooldown);
        AboutOne(if decision.Some? then Usage(subject, detail, Ep.Elapsed(decision.value))
                 else System(P.PressureAlert(0, 0, None)), key, now);
    }
  }

  /** A whole pass of judgements. */
  lemma {:induction false} SaidPass(acts: seq<Ep.Act>, vs: seq<Verdict>, key: Ep.Key, now: nat, cooldown: nat)
    requires AllKeyed(vs)
    ensures Said(acts + ActsOf(vs, now, cooldown), key)
         == Said(acts, key) + About(EventsOf(vs, Ep.ActAll(Ep.EMPTY, acts), now, cooldown), key, now)
  {
    hide Said, EventOf, ActOf, Keyed, IsAbout, Ep.ActAll;
    if vs == [] {
      assert acts + [] == acts;
      assert About([], key, now) == [];
    } else {
      var before, v := vs[..|vs| - 1], vs[|vs| - 1];
      var book := Ep.ActAll(Ep.EMPTY, acts);
      var done := ActsOf(before, now, cooldown);
      SaidPass(acts, before, key, now, cooldown);
      SaidVerdict(acts + done, v, key, now, cooldown);
      Ep.ActAllSplit(Ep.EMPTY, acts, done);
      assert (acts + done) + ActOf(v, now, cooldown) == acts + (done + ActOf(v, now, cooldown));
      AboutAppend(
        EventsOf(before, book, now, cooldown), EventOf(v, Ep.ActAll(book, done), now, cooldown), key, now);
    }
  }

  lemma SaidDrop(acts: seq<Ep.Act>, drop: Ep.Act, key: Ep.Key)
    requires !drop.OnKey?
    ensures Said(acts + [drop], key) == if Ep.Drops(drop, key) then [] else Said(acts, key)
  {
    OpsNext(acts, drop, key);
    assert Ep.OpsOf(acts, key) + [] == Ep.OpsOf(acts, key);
    assert Ep.RunKey([]).notes == [];
  }

  /** A drop and then a pass. */
  lemma SaidRound(acts: seq<Ep.Act>, drop: Ep.Act, vs: seq<Verdict>, key: Ep.Key, now: nat, cooldown: nat)
    requires !drop.OnKey? && AllKeyed(vs)
    ensures Said(acts + ([drop] + ActsOf(vs, now, cooldown)), key)
         == (if Ep.Drops(drop, key) then [] else Said(acts, key))
            + About(EventsOf(vs, Ep.Acted(Ep.ActAll(Ep.EMPTY, acts), drop), now, cooldown), key, now)
  {
    hide Said, ActsOf, EventsOf, About, AllKeyed, Ep.ActAll, Ep.Acted, Ep.Drops;
    SaidDrop(acts, drop, key);
    SaidPass(acts + [drop], vs, key, now, cooldown);
    Ep.ActAllSplit(Ep.EMPTY, acts, [drop]);
    OneAct(Ep.ActAll(Ep.EMPTY, acts), drop);
    assert acts + [drop] + ActsOf(vs, now, cooldown) == acts + ([drop] + ActsOf(vs, now, cooldown));
  }

  // ---------------------------------------------------------------- the engine's two passes

  lemma CpuKeyed(p: Process, fast: map<Pid, Stats>, slow: map<Pid, Stats>, a: Active, total: nat)
    ensures Keyed(CpuVerdict(p, fast, slow, a)) && Keyed(MemoryVerdict(p, fast, slow, a, total))
  {
    hide ForProcess, MemoryBar, AsU64, MemShare, HeldBytes;
  }

  lemma AppKeyed(g: Group, stats: map<Pid, Stats>, a: Active, total: nat)
    ensures Keyed(AppCpuVerdict(g, stats, a)) && Keyed(AppMemoryVerdict(g, stats, a, total))
  {
    hide ForProcess, AppMemoryBar, AsU64, MemShare, HeldBytes;
  }

  lemma ProcessesKeyed(ps: seq<Process>, fast: map<Pid, Stats>, slow: map<Pid, Stats>, a: Active, total: nat)
    ensures AllKeyed(ProcessVerdicts(ps, fast, slow, a, total))
  {
    hide Keyed, CpuVerdict, MemoryVerdict;
    var vs := ProcessVerdicts(ps, fast, slow, a, total);
    forall n | 0 <= n < |vs| ensures Keyed(vs[n]) { CpuKeyed(ps[n / 2], fast, slow, a, total); }
  }

  lemma AppsKeyed(gs: seq<Group>, stats: map<Pid, Stats>, a: Active, total: nat)
    ensures AllKeyed(AppVerdicts(gs, stats, a, total))
  {
    hide Keyed, AppCpuVerdict, AppMemoryVerdict;
    var vs := AppVerdicts(gs, stats, a, total);
    forall n | 0 <= n < |vs| ensures Keyed(vs[n]) { AppKeyed(gs[n / 2], stats, a, total); }
  }

  /** A window's statistics are of exactly the pids just recorded. */
  lemma RecordedKeys(h: History, window: nat, now: nat, ps: seq<Process>)
    ensures StatsMap(Recorded(h, window, now, ps), now).Keys == Pids(ps)
  {
    RecordedStats(h, window, now, ps);
  }

  /** The application pass, seen from one key. */
  lemma SaidApps(acts: seq<Ep.Act>, st: State, i: Input, key: Ep.Key)
    requires st.book == Ep.ActAll(Ep.EMPTY, acts)
    ensures Said(acts + AppActs(st, i.now, i.snap, i.a), key)
         == (if Ep.IsAppKind(key.kind) && Forgotten(i, key) then [] else Said(acts, key))
            + About(AppEvents(st, i.now, i.snap, i.a), key, i.now)
  {
    hide Said, About, StatsMap, Recorded, ActsOf, EventsOf, AppVerdicts, AllKeyed, Ep.ActAll, Ep.Acted, AsProcesses,
         Pids;
    if AppsEvaluated(i.snap, i.a) {
      var stats := StatsMap(AppsAfter(st, i.now, i.snap, i.a), i.now);
      RecordedKeys(st.apps, P.SLOW_WINDOW, i.now, AsProcesses(i.snap.groups.value));
      AppsKeyed(i.snap.groups.value, stats, i.a, i.snap.totalMemory);
      SaidRound(
        acts, Ep.Apps(stats.Keys), AppVerdictsAt(st, i.now, i.snap, i.a), key, i.now, i.a.cooldown);
    } else {
      assert acts + [] == acts;
      NoneAbout(key, i.now);
    }
  }

  lemma NoneAbout(key: Ep.Key, now: nat)
    ensures About([], key, now) == []
  {
  }

  /** The process pass, seen from one key. */
  lemma SaidProcesses(acts: seq<Ep.Act>, st: State, book: Ep.Book, i: Input, key: Ep.Key)
    requires book == Ep.ActAll(Ep.EMPTY, acts)
    ensures Said(acts + ProcessActs(st, i.now, i.snap, i.a), key)
         == (if !Ep.IsAppKind(key.kind) && Forgotten(i, key) then [] else Said(acts, key))
            + About(ProcessEvents(st, book, i.now, i.snap, i.a), key, i.now)
  {
    hide Said, About, StatsMap, Recorded, ActsOf, EventsOf, ProcessVerdicts, AllKeyed, Ep.ActAll, Ep.Acted, Pids;
    if i.snap.processes.Some? {
      var fast := StatsMap(WindowAfter(st.fast, P.WINDOW, i.now, i.snap), i.now);
      var slow := StatsMap(WindowAfter(st.slow, P.SLOW_WINDOW, i.now, i.snap), i.now);
      RecordedKeys(st.fast, P.WINDOW, i.now, i.snap.processes.value);
      ProcessesKeyed(i.snap.processes.value, fast, slow, i.a, i.snap.totalMemory);
      SaidRound(
        acts, Ep.Processes(fast.Keys), ProcessVerdictsAt(st, i.now, i.snap, i.a), key, i.now, i.a.cooldown);
    } else {
      assert acts + [] == acts;
      NoneAbout(key, i.now);
    }
  }

  /** Application events are about application keys only, and process events about process
      keys only. */
  lemma PassesTellApart(st: State, book: Ep.Book, i: Input, key: Ep.Key)
    ensures !Ep.IsAppKind(key.kind) ==> About(AppEvents(st, i.now, i.snap, i.a), key, i.now) == []
    ensures Ep.IsAppKind(key.kind) ==> About(ProcessEvents(st, book, i.now, i.snap, i.a), key, i.now) == []
  {
    hide About, StatsMap, EventsOf, AppVerdicts, ProcessVerdicts, AppsAfter, WindowAfter, Ep.Acted, FromVerdict;
    NoneAbout(key, i.now);
    if !Ep.IsAppKind(key.kind) && AppsEvaluated(i.snap, i.a) {
      var stats := StatsMap(AppsAfter(st, i.now, i.snap, i.a), i.now);
      forall e | e in AppEvents(st, i.now, i.snap, i.a) ensures !IsAbout(e, key) {
        var j := AmongApps(
          i.snap.groups.value, stats, i.a, i.snap.totalMemory, Ep.Acted(st.book, Ep.Apps(stats.Keys)), i.now, e);
      }
      AboutNone(AppEvents(st, i.now, i.snap, i.a), key, i.now);
    }
    if Ep.IsAppKind(key.kind) && i.snap.processes.Some? {
      var fast := StatsMap(WindowAfter(st.fast, P.WINDOW, i.now, i.snap), i.now);
      var slow := StatsMap(WindowAfter(st.slow, P.SLOW_WINDOW, i.now, i.snap), i.now);
      forall e | e in ProcessEvents(st, book, i.now, i.snap, i.a) ensures !IsAbout(e, key) {
        var j := AmongProcesses(
          i.snap.processes.value, fast, slow, i.a, i.snap.totalMemory, Ep.Acted(book, Ep.Processes(fast.Keys)), i.now,
          e);
      }
      AboutNone(ProcessEvents(st, book, i.now, i.snap, i.a), key, i.now);
    }
  }

  /** Disk and pressure events are about no key. */
  lemma ToldIsPasses(st: State, i: Input, key: Ep.Key)
    ensures About(Told(st, i.now, i.snap, i.a), key, i.now)
         == About(AppEvents(st, i.now, i.snap, i.a), key, i.now)
            + About(ProcessEvents(st, Ep.ActAll(st.book, AppActs(st, i.now, i.snap, i.a)), i.now, i.snap, i.a), key,
                    i.now)
  {
    hide About, AppEvents, ProcessEvents, AppActs, P.PressureStep, Ep.ActAll;
    var volumes := Volumes(D.AlertAll(st.disarmed, D.RoundOf(i.snap.disks, i.a.disk)));
    var pressure := PressureEvents(st, i.now, i.snap, i.a);
    var apps := AppEvents(st, i.now, i.snap, i.a);
    var processes := ProcessEvents(st, Ep.ActAll(st.book, AppActs(st, i.now, i.snap, i.a)), i.now, i.snap, i.a);
    AboutNone(volumes, key, i.now);
    AboutNone(pressure, key, i.now);
    AboutAppend(volumes + pressure + apps, processes, key, i.now);
    AboutAppend(volumes + pressure, apps, key, i.now);
    AboutAppend(volumes, pressure, key, i.now);
  }

  lemma HeardStep(acts: seq<Ep.Act>, st: State, i: Input, key: Ep.Key)
    requires st.book == Ep.ActAll(Ep.EMPTY, acts)
    ensures Said(acts + AppActs(st, i.now, i.snap, i.a) + ProcessActs(st, i.now, i.snap, i.a), key)
         == (if Forgotten(i, key) then [] else Said(acts, key)) + About(Told(st, i.now, i.snap, i.a), key, i.now)
  {
    hide Said, About, AppActs, ProcessActs, AppEvents, ProcessEvents, Told, Forgotten, Ep.ActAll;
    var apps := AppActs(st, i.now, i.snap, i.a);
    var book := Ep.ActAll(st.book, apps);
    SaidApps(acts, st, i, key);
    Ep.ActAllSplit(Ep.EMPTY, acts, apps);
    SaidProcesses(acts + apps, st, book, i, key);
    PassesTellApart(st, book, i, key);
    ToldIsPasses(st, i, key);
  }

  /** Over any run, the events told about a key since it was last forgotten are, in order, the
      notes of its episodes: same times, same elapsed times, nothing more and nothing less. */
  lemma {:induction false} HeardIsNotes(inputs: seq<Input>, key: Ep.Key)
    ensures HeardSince(inputs, key) == Views(Ep.RunKey(Ep.OpsOf(Acts(inputs), key)).notes)
  {
    if inputs == [] {
      assert Ep.OpsOf([], key) == [] && Ep.RunKey([]).notes == [];
    } else {
      var before, i := inputs[..|inputs| - 1], inputs[|inputs| - 1];
      HeardIsNotes(before, key);
      BookIsActs(before);
      hide RunState, AppActs, ProcessActs, Told, Forgotten, About, Ep.OpsOf, Ep.RunKey;
      HeardStep(Acts(before), RunState(before), i, key);
    }
  }

  // ---------------------------------------------------------------- what that says

  lemma RunNotes(inputs: seq<Input>, key: Ep.Key, c: nat)
    requires InTime(inputs) && forall n :: 0 <= n < |inputs| ==> inputs[n].a.cooldown >= c
    ensures var ops := Ep.OpsOf(Acts(inputs), key);
            && Ep.InTime(ops)
            && forall n :: 0 <= n < |Ep.RunKey(ops).notes| ==> Ep.RunKey(ops).notes[n].cooldown >= c
  {
    var acts := Acts(inputs);
    RunOrderly(inputs, c);
    OpsInTime(acts, key, c, if inputs == [] then 0 else inputs[|inputs| - 1].now);
    hide Acts, Ep.RunKey, Ep.OpsOf, Ep.InTime;
    NotesCarryCooldown(Ep.OpsOf(acts, key), c);
  }

  /** Two events in a row about a key: a follow-up comes once, at least half an hour after its
      crossing, and says how long; a crossing comes its cooldown after whatever was told last. */
  lemma HeardFollow(inputs: seq<Input>, key: Ep.Key, c: nat)
    requires InTime(inputs) && forall n :: 0 <= n < |inputs| ==> inputs[n].a.cooldown >= c
    ensures var hs := HeardSince(inputs, key);
            && (hs != [] ==> hs[0].repeatAfter == None)
            && forall n :: 0 <= n < |hs| - 1 ==>
                 && hs[n].at <= hs[n + 1].at
                 && (hs[n + 1].repeatAfter.None? ==> hs[n + 1].at - hs[n].at >= c)
                 && (hs[n + 1].repeatAfter.Some? ==>
                       (hs[n].repeatAfter.None?
                        && hs[n + 1].repeatAfter.value == hs[n + 1].at - hs[n].at >= 30 * 60 * SECOND))
  {
    HeardIsNotes(inputs, key);
    RunNotes(inputs, key, c);
    var ops := Ep.OpsOf(Acts(inputs), key);
    Ep.NotesFollow(ops);
    var notes, hs := Ep.RunKey(ops).notes, HeardSince(inputs, key);
    hide HeardSince, Ep.RunKey, Ep.OpsOf, Acts, Ep.Reflects, InTime, Ep.InTime;
    forall n | 0 <= n < |hs| - 1
      ensures hs[n].at <= hs[n + 1].at
      ensures hs[n + 1].repeatAfter.None? ==> hs[n + 1].at - hs[n].at >= c
      ensures hs[n + 1].repeatAfter.Some? ==>
                (hs[n].repeatAfter.None?
                 && hs[n + 1].repeatAfter.value == hs[n + 1].at - hs[n].at >= 30 * 60 * SECOND)
    {
      assert Ep.Follows(ops, notes[n], notes[n + 1]);
    }
  }

  /** In any span of time the engine tells about a key at most twice per cooldown, and twice
      more. */
  lemma HeardBounded(inputs: seq<Input>, key: Ep.Key, c: nat, span: nat, i: nat, j: nat)
    requires InTime(inputs) && c > 0 && forall n :: 0 <= n < |inputs| ==> inputs[n].a.cooldown >= c
    requires var hs := HeardSince(inputs, key); i <= j < |hs| && hs[j].at <= hs[i].at + span
    ensures j - i + 1 <= 2 * (span / c + 1)
  {
    HeardIsNotes(inputs, key);
    hide HeardSince, Ep.RunKey, Ep.OpsOf, Acts, InTime;
    NotificationsOfARun(inputs, key, c, span, i, j);
  }

  // ---------------------------------------------------------------- whatever is over its bar has been told

  lemma {:induction false} HoldingIsNoted(ops: seq<Ep.Op>, n: nat)
    requires n < |ops| && ops[n].Holds?
    ensures Ep.RunKey(ops).notes != []
  {
    var before := ops[..|ops| - 1];
    if n < |before| {
      HoldingIsNoted(before, n);
    } else {
      NoNotesIsBlank(before);
    }
  }

  lemma HoldsLast(acts: seq<Ep.Act>, v: Verdict, now: nat, cooldown: nat)
    requires v.Above?
    ensures Ep.OpsOf(acts + ActOf(v, now, cooldown), v.key) == Ep.OpsOf(acts, v.key) + [Ep.Holds(now, cooldown)]
  {
    OpsNext(acts, Ep.OnKey(v.key, Ep.Holds(now, cooldown)), v.key);
  }

  lemma HoldsStill(acts: seq<Ep.Act>, v: Verdict, key: Ep.Key, now: nat, cooldown: nat)
    ensures Ep.OpsOf(acts, key) <= Ep.OpsOf(acts + ActOf(v, now, cooldown), key)
  {
    if v.Unjudged? {
      assert acts + [] == acts;
    } else {
      OpsNext(acts, ActOf(v, now, cooldown)[0], key);
    }
  }

  /** A verdict over its bar leaves its key with a condition that holds. */
  lemma {:induction false} AboveHolds(acts: seq<Ep.Act>, vs: seq<Verdict>, n: nat, now: nat, cooldown: nat)
      returns (k: nat)
    requires n < |vs| && vs[n].Above?
    ensures var ops := Ep.OpsOf(acts + ActsOf(vs, now, cooldown), vs[n].key); k < |ops| && ops[k].Holds?
  {
    hide ActOf, Ep.OpsOf;
    var key, last := vs[n].key, |vs| - 1;
    var done := ActsOf(vs[..last], now, cooldown);
    assert acts + (done + ActOf(vs[last], now, cooldown)) == (acts + done) + ActOf(vs[last], now, cooldown);
    if n < last {
      k := AboveHolds(acts, vs[..last], n, now, cooldown);
      HoldsStill(acts + done, vs[last], key, now, cooldown);
    } else {
      k := |Ep.OpsOf(acts + done, key)|;
      HoldsLast(acts + done, vs[last], now, cooldown);
    }
  }

  lemma HoldingIsSaid(acts: seq<Ep.Act>, vs: seq<Verdict>, n: nat, now: nat, cooldown: nat)
    requires n < |vs| && vs[n].Above?
    ensures Said(acts + ActsOf(vs, now, cooldown), vs[n].key) != []
  {
    hide ActsOf, Ep.OpsOf, Ep.RunKey;
    var k := AboveHolds(acts, vs, n, now, cooldown);
    HoldingIsNoted(Ep.OpsOf(acts + ActsOf(vs, now, cooldown), vs[n].key), k);
  }

  lemma ProcessIsSaid(acts: seq<Ep.Act>, st: State, i: Input, n: nat)
    requires i.snap.processes.Some? && n < 2 * |i.snap.processes.value|
    requires ProcessVerdictsAt(st, i.now, i.snap, i.a)[n].Above?
    ensures Said(acts + ProcessActs(st, i.now, i.snap, i.a), ProcessVerdictsAt(st, i.now, i.snap, i.a)[n].key) != []
  {
    hide Said, ProcessVerdicts, ActsOf, StatsMap, WindowAfter;
    var vs := ProcessVerdictsAt(st, i.now, i.snap, i.a);
    var drop := Ep.Processes(StatsMap(WindowAfter(st.fast, P.WINDOW, i.now, i.snap), i.now).Keys);
    HoldingIsSaid(acts + [drop], vs, n, i.now, i.a.cooldown);
    assert acts + [drop] + ActsOf(vs, i.now, i.a.cooldown) == acts + ([drop] + ActsOf(vs, i.now, i.a.cooldown));
  }

  lemma AppIsSaid(acts: seq<Ep.Act>, st: State, i: Input, n: nat)
    requires AppsEvaluated(i.snap, i.a) && n < 2 * |i.snap.groups.value|
    requires AppVerdictsAt(st, i.now, i.snap, i.a)[n].Above?
    ensures Said(acts + AppActs(st, i.now, i.snap, i.a), AppVerdictsAt(st, i.now, i.snap, i.a)[n].key) != []
  {
    hide Said, AppVerdicts, ActsOf, StatsMap, AppsAfter;
    var vs := AppVerdictsAt(st, i.now, i.snap, i.a);
    var drop := Ep.Apps(StatsMap(AppsAfter(st, i.now, i.snap, i.a), i.now).Keys);
    HoldingIsSaid(acts + [drop], vs, n, i.now, i.a.cooldown);
    assert acts + [drop] + ActsOf(vs, i.now, i.a.cooldown) == acts + ([drop] + ActsOf(vs, i.now, i.a.cooldown));
  }

  lemma HeardIsSaid(inputs: seq<Input>, key: Ep.Key)
    requires inputs != []
    ensures var i, was := inputs[|inputs| - 1], RunState(inputs[..|inputs| - 1]);
            var acts := Acts(inputs[..|inputs| - 1]) + AppActs(was, i.now, i.snap, i.a);
            HeardSince(inputs, key) == Said(acts + ProcessActs(was, i.now, i.snap, i.a), key)
  {
    hide HeardSince, Acts, RunState, AppActs, ProcessActs, Ep.OpsOf, Ep.RunKey;
    HeardIsNotes(inputs, key);
    ActsNext(inputs);
    var i, was, acts := inputs[|inputs| - 1], RunState(inputs[..|inputs| - 1]), Acts(inputs[..|inputs| - 1]);
    var apps, processes := AppActs(was, i.now, i.snap, i.a), ProcessActs(was, i.now, i.snap, i.a);
    assert acts + (apps + processes) == acts + apps + processes;
  }

  /** Whatever process is over its bar now has been told of, now or since it was last absent. */
  lemma ProcessVerdictIsHeard(inputs: seq<Input>, n: nat)
    requires inputs != []
    requires var i, was := inputs[|inputs| - 1], RunState(inputs[..|inputs| - 1]);
             && i.snap.processes.Some? && n < 2 * |i.snap.processes.value|
             && ProcessVerdictsAt(was, i.now, i.snap, i.a)[n].Above?
    ensures var i, was := inputs[|inputs| - 1], RunState(inputs[..|inputs| - 1]);
            HeardSince(inputs, ProcessVerdictsAt(was, i.now, i.snap, i.a)[n].key) != []
  {
    hide HeardSince, Said, Acts, RunState, AppActs, ProcessActs, ProcessVerdicts, StatsMap, WindowAfter;
    var i, was := inputs[|inputs| - 1], RunState(inputs[..|inputs| - 1]);
    HeardIsSaid(inputs, ProcessVerdictsAt(was, i.now, i.snap, i.a)[n].key);
    ProcessIsSaid(Acts(inputs[..|inputs| - 1]) + AppActs(was, i.now, i.snap, i.a), was, i, n);
  }

  /** The same for applications, which the process pass after them does not forget. */
  lemma AppVerdictIsHeard(inputs: seq<Input>, n: nat)
    requires inputs != []
    requires var i, was := inputs[|inputs| - 1], RunState(inputs[..|inputs| - 1]);
             && AppsEvaluated(i.snap, i.a) && n < 2 * |i.snap.groups.value|
             && AppVerdictsAt(was, i.now, i.snap, i.a)[n].Above?
             && Ep.IsAppKind(AppVerdictsAt(was, i.now, i.snap, i.a)[n].key.kind)
    ensures var i, was := inputs[|inputs| - 1], RunState(inputs[..|inputs| - 1]);
            HeardSince(inputs, AppVerdictsAt(was, i.now, i.snap, i.a)[n].key) != []
  {
    hide HeardSince, Said, Acts, RunState, AppActs, ProcessActs, ProcessEvents, AppVerdicts, StatsMap, AppsAfter, About,
         Forgotten, AppsEvaluated, Ep.ActAll;
    var i, was := inputs[|inputs| - 1], RunState(inputs[..|inputs| - 1]);
    var key := AppVerdictsAt(was, i.now, i.snap, i.a)[n].key;
    var acts := Acts(inputs[..|inputs| - 1]) + AppActs(was, i.now, i.snap, i.a);
    HeardIsSaid(inputs, key);
    AppIsSaid(Acts(inputs[..|inputs| - 1]), was, i, n);
    SaidProcesses(acts, was, Ep.ActAll(Ep.EMPTY, acts), i, key);
  }

  lemma AppVerdictHere(inputs: seq<Input>, j: nat)
    requires inputs != []
    requires var i := inputs[|inputs| - 1]; AppsEvaluated(i.snap, i.a) && j < |i.snap.groups.value|
    ensures var i, was, st := inputs[|inputs| - 1], RunState(inputs[..|inputs| - 1]), RunState(inputs);
            var vs, g := AppVerdictsAt(was, i.now, i.snap, i.a), i.snap.groups.value[j];
            && vs[2 * j] == AppCpuVerdict(g, StatsMap(st.apps, i.now), i.a)
            && vs[2 * j + 1] == AppMemoryVerdict(g, StatsMap(st.apps, i.now), i.a, i.snap.totalMemory)
  {
    var i, was, st := inputs[|inputs| - 1], RunState(inputs[..|inputs| - 1]), RunState(inputs);
    assert st.apps == AppsAfter(was, i.now, i.snap, i.a);
    hide RunState, StatsMap, AppsAfter, AppVerdicts, AppCpuVerdict, AppMemoryVerdict;
    AppVerdictsOf(i.snap.groups.value, j, StatsMap(st.apps, i.now), i.a, i.snap.totalMemory);
  }

  /** The key has been told of since it was last forgotten: in this very evaluation, as a first
      crossing, if not before. */
  predicate Known(inputs: seq<Input>, key: Ep.Key)
    requires inputs != []
  {
    && HeardSince(inputs, key) != []
    && (HeardSince(inputs[..|inputs| - 1], key) == [] ==>
          exists e :: e in ToldAt(inputs) && IsAbout(e, key) && e.repeatAfter == None)
  }

  lemma {:induction false} AboutSome(events: seq<Event>, key: Ep.Key, now: nat) returns (e: Event)
    requires About(events, key, now) != []
    ensures e in events && IsAbout(e, key) && About(events, key, now)[0] == Heard(now, e.repeatAfter)
  {
    hide IsAbout;
    var last := |events| - 1;
    if About(events[..last], key, now) != [] {
      e := AboutSome(events[..last], key, now);
    } else {
      e := events[last];
    }
  }

  lemma HeardIsKnown(inputs: seq<Input>, key: Ep.Key)
    requires inputs != [] && InTime(inputs) && HeardSince(inputs, key) != []
    ensures Known(inputs, key)
  {
    HeardFollow(inputs, key, 0);
    hide ToldAt, Forgotten, About, IsAbout, InTime;
    var before, now := inputs[..|inputs| - 1], inputs[|inputs| - 1].now;
    if HeardSince(before, key) == [] {
      assert HeardSince(inputs, key) == About(ToldAt(inputs), key, now);
      var e := AboutSome(ToldAt(inputs), key, now);
    }
  }

  /** A process whose samples are over its CPU bar has been told of since it was last absent. */
  lemma HotProcessIsKnown(inputs: seq<Input>, j: nat)
    requires inputs != [] && InTime(inputs)
    requires var ps := inputs[|inputs| - 1].snap.processes; ps.Some? && j < |ps.value|
    requires var i := inputs[|inputs| - 1];
             var p, log := i.snap.processes.value[j], Log(inputs);
             var t := ForProcess(i.a.cpu, p.name);
             t.Some? && (RunsHot(log, p.pid, i.now, 60 * SECOND, 50 * SECOND, 3.0 * t.value)
                         || RunsHot(log, p.pid, i.now, 300 * SECOND, 250 * SECOND, t.value))
    ensures Known(inputs, Ep.Key(inputs[|inputs| - 1].snap.processes.value[j].pid, Ep.CpuKind))
  {
    var key := Ep.Key(inputs[|inputs| - 1].snap.processes.value[j].pid, Ep.CpuKind);
    hide RunState, Log, RunsHot, ForProcess, StatsMap, InTime, CpuVerdict, MemoryVerdict, ProcessVerdictsAt, HeardSince,
         Known;
    CpuJudgedExactly(inputs, j);
    VerdictHere(inputs, j);
    ProcessVerdictIsHeard(inputs, 2 * j);
    HeardIsKnown(inputs, key);
  }

  /** Over the last five minutes, `pid` was sampled for at least 250 seconds and holds `bar`
      bytes on average. */
  predicate HoldsMuch(log: seq<Observation>, pid: Pid, now: nat, bar: nat) {
    var recent := Recent(Full(log, pid), now, 300 * SECOND);
    recent != [] && Since(now, recent[0].at) >= 250 * SECOND && AsU64(HeldMean(recent)) >= bar
  }

  /** The same for its memory. */
  lemma BigProcessIsKnown(inputs: seq<Input>, j: nat)
    requires inputs != [] && InTime(inputs)
    requires var ps := inputs[|inputs| - 1].snap.processes; ps.Some? && j < |ps.value|
    requires var i := inputs[|inputs| - 1];
             var p, total := i.snap.processes.value[j], i.snap.totalMemory;
             var bar := MemoryBar(i.a, p.name, total);
             bar.Some? && total > 0 && HoldsMuch(Log(inputs), p.pid, i.now, bar.value)
    ensures Known(inputs, Ep.Key(inputs[|inputs| - 1].snap.processes.value[j].pid, Ep.MemoryKind))
  {
    var key := Ep.Key(inputs[|inputs| - 1].snap.processes.value[j].pid, Ep.MemoryKind);
    hide RunState, Log, MemoryBar, StatsMap, InTime, CpuVerdict, MemoryVerdict, ProcessVerdictsAt, HeardSince, Known,
         Recent, Full, HeldMean, AsU64;
    MemoryJudgedExactly(inputs, j);
    VerdictHere(inputs, j);
    ProcessVerdictIsHeard(inputs, 2 * j + 1);
    HeardIsKnown(inputs, key);
  }

  /** And for applications, whose processes are added up. */
  lemma HotAppIsKnown(inputs: seq<Input>, j: nat)
    requires inputs != [] && InTime(inputs)
    requires var i := inputs[|inputs| - 1]; AppsEvaluated(i.snap, i.a) && j < |i.snap.groups.value|
    requires var i := inputs[|inputs| - 1];
             var g := i.snap.groups.value[j];
             var t := ForProcess(i.a.appCpu, g.name);
             t.Some? && RunsHot(AppLog(inputs), g.root, i.now, 300 * SECOND, 250 * SECOND, t.value)
    ensures Known(inputs, Ep.Key(inputs[|inputs| - 1].snap.groups.value[j].root, Ep.AppCpuKind))
  {
    var key := Ep.Key(inputs[|inputs| - 1].snap.groups.value[j].root, Ep.AppCpuKind);
    hide RunState, AppLog, ForProcess, StatsMap, InTime, AppCpuVerdict, AppMemoryVerdict, AppVerdictsAt, HeardSince,
         Known, Recent, Full, CpuMean, AppsEvaluated;
    AppsJudgedExactly(inputs, j);
    AppVerdictHere(inputs, j);
    AppVerdictIsHeard(inputs, 2 * j);
    HeardIsKnown(inputs, key);
  }

  lemma BigAppIsKnown(inputs: seq<Input>, j: nat)
    requires inputs != [] && InTime(inputs)
    requires var i := inputs[|inputs| - 1]; AppsEvaluated(i.snap, i.a) && j < |i.snap.groups.value|
    requires var i := inputs[|inputs| - 1];
             var g, total := i.snap.groups.value[j], i.snap.totalMemory;
             var bar := AppMemoryBar(i.a, g.name, total);
             bar.Some? && total > 0 && HoldsMuch(AppLog(inputs), g.root, i.now, bar.value)
    ensures Known(inputs, Ep.Key(inputs[|inputs| - 1].snap.groups.value[j].root, Ep.AppMemoryKind))
  {
    var key := Ep.Key(inputs[|inputs| - 1].snap.groups.value[j].root, Ep.AppMemoryKind);
    hide RunState, AppLog, AppMemoryBar, StatsMap, InTime, AppCpuVerdict, AppMemoryVerdict, AppVerdictsAt, HeardSince,
         Known, Recent, Full, HeldMean, AsU64, AppsEvaluated;
    AppsJudgedExactly(inputs, j);
    AppVerdictHere(inputs, j);
    AppVerdictIsHeard(inputs, 2 * j + 1);
    HeardIsKnown(inputs, key);
  }
}
