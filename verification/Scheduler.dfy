/** The scheduler's `in_flight` flag against collects that cannot be cancelled, as a machine
    whose steps are the atomic actions of the loops, the callers and the blocking tasks. */
module Scheduler {

  /** A blocking collect: waiting for the collector's lock, holding it, done with it but not yet
      past the clearing of the flag, past it, or panicked; `handled` once whoever waited for it
      has cleared the flag in its place. */
  datatype Task = Queued | Collecting | Collected | Cleared | Panicked(handled: bool)

  /** Where a loop or a `collect_once` call stands.

      Claimed: before `collect_snapshot` stores the flag. Stored: before it spawns. Joined: it
      has learnt that its task panicked and has not yet cleared the flag. */
  datatype Pc = Idle | Claimed | Stored | Waiting(task: nat) | Joined(task: nat) | Dispatching | Gone

  datatype Actor = Actor(isLoop: bool, pc: Pc, signalled: bool)

  /** `started` is whether a shutdown sender is held; `calls` counts `collect_once`. */
  datatype State = State(flag: bool, actors: seq<Actor>, tasks: seq<Task>, started: bool, newest: nat, calls: nat)

  const INIT := State(false, [], [], false, 0, 0)

  datatype Step =
    | Start
    | Stop
    | Exit(i: nat)
    | Tick(i: nat)
    | CollectOnce
    | StoreFlag(i: nat)
    | Spawn(i: nat)
    | Lock(t: nat)
    | Return(t: nat)
    | Finish(t: nat)
    | Panic(t: nat)
    | TimeOut(i: nat)
    | SeeResult(i: nat)
    | SeePanic(i: nat)
    | ClearFlag(i: nat)
    | Dispatched(i: nat)
    | Drop(i: nat)

  predicate At(s: State, i: nat, pc: Pc) {
    i < |s.actors| && s.actors[i].pc == pc
  }

  predicate Waits(s: State, i: nat) {
    i < |s.actors| && s.actors[i].pc.Waiting? && s.actors[i].pc.task < |s.tasks|
  }

  /** Nobody holds the collector's lock. */
  predicate LockFree(s: State) {
    forall t :: 0 <= t < |s.tasks| ==> s.tasks[t] != Collecting
  }

  predicate TaskIs(s: State, t: nat, task: Task) {
    t < |s.tasks| && s.tasks[t] == task
  }

  /** `start` and `collect_once` read the time-out through the collector's lock before anything
      else, except that a second `start` is refused at once. */
  predicate Enabled(s: State, step: Step) {
    match step
    case Start => s.started || LockFree(s)
    case Stop => true
    case CollectOnce => LockFree(s)
    case Exit(i) => At(s, i, Idle) && s.actors[i].isLoop && s.actors[i].signalled
    case Tick(i) => At(s, i, Idle) && s.actors[i].isLoop
    case StoreFlag(i) => At(s, i, Claimed)
    case Spawn(i) => At(s, i, Stored)
    case Lock(t) => TaskIs(s, t, Queued) && LockFree(s)
    case Return(t) => TaskIs(s, t, Collecting)
    case Finish(t) => TaskIs(s, t, Collected)
    case Panic(t) => TaskIs(s, t, Collecting)
    case TimeOut(i) => Waits(s, i)
    case SeeResult(i) => Waits(s, i) && s.tasks[s.actors[i].pc.task] == Cleared
    case SeePanic(i) => Waits(s, i) && s.tasks[s.actors[i].pc.task] == Panicked(false)
    case ClearFlag(i) => i < |s.actors| && s.actors[i].pc.Joined? && s.actors[i].pc.task < |s.tasks|
    case Dispatched(i) => At(s, i, Dispatching)
    case Drop(i) => i < |s.actors| && !s.actors[i].isLoop && (s.actors[i].pc.Waiting? || s.actors[i].pc.Dispatching?)
  }

  function Moved(s: State, i: nat, pc: Pc): State
    requires i < |s.actors|
  {
    s.(actors := s.actors[i := s.actors[i].(pc := pc)])
  }

  /** A loop goes back to waiting for a tick; a call is over. */
  function Rest(s: State, i: nat): State
    requires i < |s.actors|
  {
    Moved(s, i, if s.actors[i].isLoop then Idle else Gone)
  }

  function Do(s: State, step: Step): State
    requires Enabled(s, step)
  {
    match step
    case Start =>
      // Already running: an error, and nothing happens
      if s.started then s
      else s.(actors := s.actors + [Actor(true, Idle, false)], started := true, newest := |s.actors|)
    case Stop =>
      // The newest loop is told to leave; it may be in the middle of a round
      if !s.started then s
      else if s.newest < |s.actors| then
        s.(started := false, actors := s.actors[s.newest := s.actors[s.newest].(signalled := true)])
      else s.(started := false)
    case Exit(i) => Moved(s, i, Gone)
    case Tick(i) =>
      // An atomic swap: only the one that finds it clear goes on to collect
      if s.flag then s else Moved(s, i, Claimed).(flag := true)
    case CollectOnce =>
      s.(actors := s.actors + [Actor(false, Claimed, false)], calls := s.calls + 1)
    case StoreFlag(i) => Moved(s, i, Stored).(flag := true)
    case Spawn(i) => Moved(s, i, Waiting(|s.tasks|)).(tasks := s.tasks + [Queued])
    case Lock(t) => s.(tasks := s.tasks[t := Collecting])
    case Return(t) => s.(tasks := s.tasks[t := Collected])
    // The blocking task clears the flag itself
    case Finish(t) => s.(tasks := s.tasks[t := Cleared], flag := false)
    case Panic(t) => s.(tasks := s.tasks[t := Panicked(false)])
    // The wait is over; the collect is not
    case TimeOut(i) => Rest(s, i)
    case SeeResult(i) => Moved(s, i, Dispatching)
    case SeePanic(i) => Moved(s, i, Joined(s.actors[i].pc.task))
    case ClearFlag(i) =>
      Rest(s, i).(tasks := s.tasks[s.actors[i].pc.task := Panicked(true)], flag := false)
    case Dispatched(i) => Rest(s, i)
    case Drop(i) => Moved(s, i, Gone)
  }

  predicate Possible(s: State, steps: seq<Step>)
    decreases |steps|
  {
    steps == [] || (Enabled(s, steps[0]) && Possible(Do(s, steps[0]), steps[1..]))
  }

  function Run(s: State, steps: seq<Step>): State
    requires Possible(s, steps)
    decreases |steps|
  {
    if steps == [] then s else Run(Do(s, steps[0]), steps[1..])
  }

  // ---------------------------------------------------------------- counting

  /** About to spawn. */
  predicate Spawning(a: Actor) {
    a.pc == Claimed || a.pc == Stored
  }

  /** Spawned, and neither the collect nor the one who waited for it has cleared the flag. */
  predicate Uncleared(t: Task) {
    Live(t) || t == Panicked(false)
  }

  /** The collect will clear the flag itself unless it panics. */
  predicate Live(t: Task) {
    t == Queued || t == Collecting || t == Collected
  }

  function SpawningIn(actors: seq<Actor>): nat {
    if actors == [] then 0
    else SpawningIn(actors[..|actors| - 1]) + if Spawning(actors[|actors| - 1]) then 1 else 0
  }

  function UnclearedIn(tasks: seq<Task>): nat {
    if tasks == [] then 0
    else UnclearedIn(tasks[..|tasks| - 1]) + if Uncleared(tasks[|tasks| - 1]) then 1 else 0
  }

  function Bit(b: bool): nat {
    if b then 1 else 0
  }

  lemma {:induction false} SpawningUpdate(actors: seq<Actor>, i: nat, a: Actor)
    requires i < |actors|
    ensures SpawningIn(actors[i := a]) == SpawningIn(actors) - Bit(Spawning(actors[i])) + Bit(Spawning(a))
  {
    var last := |actors| - 1;
    if i < last {
      SpawningUpdate(actors[..last], i, a);
      assert actors[i := a][..last] == actors[..last][i := a];
    } else {
      assert actors[i := a][..last] == actors[..last];
    }
  }

  lemma {:induction false} UnclearedUpdate(tasks: seq<Task>, i: nat, t: Task)
    requires i < |tasks|
    ensures UnclearedIn(tasks[i := t]) == UnclearedIn(tasks) - Bit(Uncleared(tasks[i])) + Bit(Uncleared(t))
  {
    var last := |tasks| - 1;
    if i < last {
      UnclearedUpdate(tasks[..last], i, t);
      assert tasks[i := t][..last] == tasks[..last][i := t];
    } else {
      assert tasks[i := t][..last] == tasks[..last];
    }
  }

  lemma Appends(actors: seq<Actor>, a: Actor, tasks: seq<Task>, t: Task)
    ensures SpawningIn(actors + [a]) == SpawningIn(actors) + Bit(Spawning(a))
    ensures UnclearedIn(tasks + [t]) == UnclearedIn(tasks) + Bit(Uncleared(t))
  {
    assert (actors + [a])[..|actors|] == actors;
    assert (tasks + [t])[..|tasks|] == tasks;
  }

  // ---------------------------------------------------------------- the bound

  /** The collects about to be spawned or not yet cleared. */
  function Pending(s: State): nat {
    SpawningIn(s.actors) + UnclearedIn(s.tasks)
  }

  /** The collect an actor waits for or has joined; -1 for none. */
  function TaskOf(a: Actor): int {
    match a.pc case Waiting(t) => t case Joined(t) => t case _ => -1
  }

  predicate OwnTasks(actors: seq<Actor>) {
    forall i, j :: 0 <= i < j < |actors| && TaskOf(actors[i]) == TaskOf(actors[j]) ==> TaskOf(actors[i]) == -1
  }

  predicate RealTasks(actors: seq<Actor>, tasks: seq<Task>) {
    forall i :: 0 <= i < |actors| ==>
      TaskOf(actors[i]) < |tasks| && (actors[i].pc.Joined? ==> tasks[actors[i].pc.task] == Panicked(false))
  }

  /** No task has two actors waiting for it, and what has been joined has panicked. */
  predicate Sound(s: State) {
    OwnTasks(s.actors) && RealTasks(s.actors, s.tasks)
  }

  lemma MoveSound(actors: seq<Actor>, tasks: seq<Task>, i: nat, a: Actor)
    requires OwnTasks(actors) && RealTasks(actors, tasks) && i < |actors|
    requires TaskOf(a) == -1 || TaskOf(a) == TaskOf(actors[i])
    requires a.pc.Joined? ==> tasks[a.pc.task] == Panicked(false)
    ensures OwnTasks(actors[i := a]) && RealTasks(actors[i := a], tasks)
  {
  }

  lemma TaskSound(actors: seq<Actor>, tasks: seq<Task>, t: nat, to: Task)
    requires RealTasks(actors, tasks) && t < |tasks|
    requires forall i :: 0 <= i < |actors| ==> actors[i].pc != Joined(t)
    ensures RealTasks(actors, tasks[t := to])
  {
  }

  lemma AppendSound(actors: seq<Actor>, tasks: seq<Task>, a: Actor)
    requires OwnTasks(actors) && RealTasks(actors, tasks) && TaskOf(a) == -1
    ensures OwnTasks(actors + [a]) && RealTasks(actors + [a], tasks)
  {
  }

  lemma StepSound(s: State, step: Step)
    requires Sound(s) && Enabled(s, step)
    ensures Sound(Do(s, step))
  {
    hide OwnTasks;
    match step {
      case Start => AppendSound(s.actors, s.tasks, Actor(true, Idle, false));
      case CollectOnce => AppendSound(s.actors, s.tasks, Actor(false, Claimed, false));
      case Stop =>
        if s.started && s.newest < |s.actors| {
          MoveSound(s.actors, s.tasks, s.newest, s.actors[s.newest].(signalled := true));
        }
      case Lock(t) => TaskSound(s.actors, s.tasks, t, Collecting);
      case Return(t) => TaskSound(s.actors, s.tasks, t, Collected);
      case Finish(t) => TaskSound(s.actors, s.tasks, t, Cleared);
      case Panic(t) => TaskSound(s.actors, s.tasks, t, Panicked(false));
      case Spawn(i) => SpawnSound(s, i);
      case ClearFlag(i) => ClearSound(s, i);
      case _ => ActorSound(s, step);
    }
  }

  /** Steps of one actor that leave the tasks alone. */
  lemma ActorSound(s: State, step: Step)
    requires Sound(s) && Enabled(s, step)
    requires || step.Exit? || step.Tick? || step.StoreFlag? || step.TimeOut? || step.SeeResult? || step.SeePanic?
             || step.Dispatched? || step.Drop?
    ensures Sound(Do(s, step))
  {
    hide OwnTasks;
    MoveSound(s.actors, s.tasks, step.i, Do(s, step).actors[step.i]);
    assert step.Tick? && s.flag ==> Do(s, step) == s;
  }

  lemma SpawnSound(s: State, i: nat)
    requires Sound(s) && Enabled(s, Spawn(i))
    ensures Sound(Do(s, Spawn(i)))
  {
  }

  lemma ClearSound(s: State, i: nat)
    requires Sound(s) && Enabled(s, ClearFlag(i))
    ensures Sound(Do(s, ClearFlag(i)))
  {
    var after := Do(s, ClearFlag(i));
    MoveSound(s.actors, s.tasks, i, after.actors[i]);
    forall j | 0 <= j < |s.actors| ensures after.actors[j].pc != Joined(s.actors[i].pc.task) {
      assert j != i ==> TaskOf(s.actors[j]) != TaskOf(s.actors[i]);
    }
    TaskSound(after.actors, s.tasks, s.actors[i].pc.task, Panicked(true));
  }

  /** How each step moves the number of collects that are pending. */
  lemma StepCounts(s: State, step: Step)
    requires Sound(s) && Enabled(s, step)
    ensures var after := Do(s, step);
            Pending(after) ==
              Pending(s)
              + Bit(step.CollectOnce? || (step.Tick? && !s.flag))
              - Bit(step.Finish? || step.ClearFlag?)
  {
    hide SpawningIn, UnclearedIn;
    match step {
      case Start => Appends(s.actors, Actor(true, Idle, false), s.tasks, Queued);
      case Stop =>
        if s.started && s.newest < |s.actors| {
          SpawningUpdate(s.actors, s.newest, s.actors[s.newest].(signalled := true));
        }
      case CollectOnce => Appends(s.actors, Actor(false, Claimed, false), s.tasks, Queued);
      case Lock(t) => UnclearedUpdate(s.tasks, t, Collecting);
      case Return(t) => UnclearedUpdate(s.tasks, t, Collected);
      case Finish(t) => UnclearedUpdate(s.tasks, t, Cleared);
      case Panic(t) => UnclearedUpdate(s.tasks, t, Panicked(false));
      case _ =>
        MoveCounts(s, step);
    }
  }

  lemma MoveCounts(s: State, step: Step)
    requires Sound(s) && Enabled(s, step)
    requires !step.Start? && !step.Stop? && !step.CollectOnce?
    requires !step.Lock? && !step.Return? && !step.Finish? && !step.Panic?
    ensures Pending(Do(s, step)) == Pending(s) + Bit(step.Tick? && !s.flag) - Bit(step.ClearFlag?)
  {
    hide SpawningIn, UnclearedIn;
    var i := step.i;
    var after := Do(s, step);
    if i < |after.actors| {
      SpawningUpdate(s.actors, i, after.actors[i]);
      assert step.Tick? && s.flag ==> after == s;
    }
    if step.Spawn? { Appends(s.actors, s.actors[i], s.tasks, Queued); }
    if step.ClearFlag? { UnclearedUpdate(s.tasks, s.actors[i].pc.task, Panicked(true)); }
  }

  /** Without `collect_once`, the flag says exactly whether a collect is pending; each call can
      leave at most one more pending. The flag is never set for nothing. */
  predicate Bounded(s: State) {
    && Sound(s)
    && Pending(s) <= s.calls + Bit(s.flag)
    && (s.calls == 0 ==> Pending(s) == Bit(s.flag))
    && (s.flag ==> Pending(s) > 0)
  }

  lemma PendingWitness(s: State)
    ensures (exists i :: 0 <= i < |s.actors| && Spawning(s.actors[i])) ==> SpawningIn(s.actors) > 0
    ensures (exists t :: 0 <= t < |s.tasks| && Uncleared(s.tasks[t])) ==> UnclearedIn(s.tasks) > 0
  {
    if i :| 0 <= i < |s.actors| && Spawning(s.actors[i]) {
      SpawningUpdate(s.actors, i, s.actors[i].(pc := Idle));
    }
    if t :| 0 <= t < |s.tasks| && Uncleared(s.tasks[t]) {
      UnclearedUpdate(s.tasks, t, Cleared);
    }
  }

  lemma StepBounded(s: State, step: Step)
    requires Bounded(s) && Enabled(s, step)
    ensures Bounded(Do(s, step))
  {
    StepSound(s, step);
    StepCounts(s, step);
    PendingWitness(s);
    hide SpawningIn, UnclearedIn, Sound, Pending;
    assert step.Finish? ==> Uncleared(s.tasks[step.t]);
    assert step.ClearFlag? ==> Pending(s) > 0 by { ClearFlagPending(s, step); }
    assert step.Finish? ==> Pending(s) > 0 by { PendingUp(s); }
    assert step.StoreFlag? ==> Pending(s) > 0 by { PendingUp(s); }
  }

  lemma PendingUp(s: State)
    ensures (exists i :: 0 <= i < |s.actors| && Spawning(s.actors[i])) ==> Pending(s) > 0
    ensures (exists t :: 0 <= t < |s.tasks| && Uncleared(s.tasks[t])) ==> Pending(s) > 0
  {
    PendingWitness(s);
  }

  lemma ClearFlagPending(s: State, step: Step)
    requires Sound(s) && Enabled(s, step)
    ensures step.ClearFlag? ==> Pending(s) > 0
  {
    PendingWitness(s);
    if step.ClearFlag? {
      assert Uncleared(s.tasks[s.actors[step.i].pc.task]);
    }
  }

  lemma {:induction false} RunBounded(s: State, steps: seq<Step>)
    requires Bounded(s) && Possible(s, steps)
    ensures Bounded(Run(s, steps))
    decreases |steps|
  {
    if steps != [] {
      hide Bounded, Do, Enabled;
      StepBounded(s, steps[0]);
      RunBounded(Do(s, steps[0]), steps[1..]);
    }
  }

  function Calls(steps: seq<Step>): nat {
    if steps == [] then 0 else Bit(steps[0].CollectOnce?) + Calls(steps[1..])
  }

  lemma {:induction false} CallsCounted(s: State, steps: seq<Step>)
    requires Possible(s, steps)
    ensures Run(s, steps).calls == s.calls + Calls(steps)
    decreases |steps|
  {
    if steps != [] {
      assert Do(s, steps[0]).calls == s.calls + Bit(steps[0].CollectOnce?);
      hide Do, Enabled;
      CallsCounted(Do(s, steps[0]), steps[1..]);
    }
  }

  lemma InitBounded()
    ensures Bounded(INIT)
  {
  }

  /** For every interleaving of ticks, time-outs, completions, panics, starts, stops and
      `collect_once` calls: the collects spawned and not yet cleared never exceed one plus the
      number of calls. With no call the flag is set exactly when one is pending. */
  lemma NeverMoreThanCallsPlusOne(steps: seq<Step>)
    requires Possible(INIT, steps)
    ensures UnclearedIn(Run(INIT, steps).tasks) <= 1 + Calls(steps)
    ensures Calls(steps) == 0 ==> Pending(Run(INIT, steps)) == Bit(Run(INIT, steps).flag)
  {
    hide Run, Possible, Do, Enabled, Calls, Bounded, Pending, UnclearedIn;
    InitBounded();
    RunBounded(INIT, steps);
    CallsCounted(INIT, steps);
    BoundedMeans(Run(INIT, steps));
  }

  lemma BoundedMeans(s: State)
    requires Bounded(s)
    ensures UnclearedIn(s.tasks) <= 1 + s.calls
    ensures s.calls == 0 ==> Pending(s) == Bit(s.flag)
  {
    hide Sound, SpawningIn, UnclearedIn;
  }

  // ---------------------------------------------------------------- the bound is reached

  lemma {:induction false} RunAppend(s: State, a: seq<Step>, b: seq<Step>)
    requires Possible(s, a) && Possible(Run(s, a), b)
    ensures Possible(s, a + b) && Run(s, a + b) == Run(Run(s, a), b)
    ensures Calls(a + b) == Calls(a) + Calls(b)
    decreases |a|
  {
    hide Do, Enabled;
    if a == [] {
      assert a + b == b;
    } else {
      RunAppend(Do(s, a[0]), a[1..], b);
      assert (a + b)[1..] == a[1..] + b;
    }
  }

  lemma Nothing(s: State)
    ensures Possible(s, []) && Run(s, []) == s && Calls([]) == 0
  {
  }

  lemma Then(s: State, step: Step, rest: seq<Step>) returns (steps: seq<Step>)
    requires Enabled(s, step) && Possible(Do(s, step), rest)
    ensures steps == [step] + rest
    ensures Possible(s, steps) && Run(s, steps) == Run(Do(s, step), rest)
    ensures Calls(steps) == Bit(step.CollectOnce?) + Calls(rest)
  {
    hide Do, Enabled;
    steps := [step] + rest;
    assert steps[1..] == rest;
  }

  lemma FourSteps(s: State, a: Step, b: Step, c: Step, d: Step) returns (steps: seq<Step>)
    requires Enabled(s, a) && Enabled(Do(s, a), b) && Enabled(Do(Do(s, a), b), c) && Enabled(Do(Do(Do(s, a), b), c), d)
    ensures Possible(s, steps)
    ensures Run(s, steps) == Do(Do(Do(Do(s, a), b), c), d)
    ensures Calls(steps) == Bit(a.CollectOnce?) + Bit(b.CollectOnce?) + Bit(c.CollectOnce?) + Bit(d.CollectOnce?)
  {
    hide *;
    var s1 := Do(s, a);
    var s2 := Do(s1, b);
    var s3 := Do(s2, c);
    Nothing(Do(s3, d));
    steps := Then(s3, d, []);
    steps := Then(s2, c, steps);
    steps := Then(s1, b, steps);
    steps := Then(s, a, steps);
  }

  predicate AllQueued(s: State) {
    forall t :: 0 <= t < |s.tasks| ==> s.tasks[t] == Queued
  }

  /** What a call that gives up leaves: itself, gone, and its collect, waiting for the lock. */
  function GivenUp(s: State): State {
    State(true, s.actors + [Actor(false, Gone, false)], s.tasks + [Queued], s.started, s.newest, s.calls + 1)
  }

  /** Those steps, one after the other. */
  lemma GivesUp(s: State)
    requires AllQueued(s)
    ensures var i := |s.actors|;
            && Enabled(s, CollectOnce)
            && (var called := Do(s, CollectOnce);
                && Enabled(called, StoreFlag(i))
                && (var stored := Do(called, StoreFlag(i));
                    && Enabled(stored, Spawn(i))
                    && (var spawned := Do(stored, Spawn(i));
                        Enabled(spawned, TimeOut(i)) && Do(spawned, TimeOut(i)) == GivenUp(s))))
  {
    var i, others := |s.actors|, s.actors;
    var called := Do(s, CollectOnce);
    assert called.actors == others + [Actor(false, Claimed, false)];
    var stored := Do(called, StoreFlag(i));
    assert stored.actors == others + [Actor(false, Stored, false)];
    var spawned := Do(stored, Spawn(i));
    assert spawned.actors == others + [Actor(false, Waiting(|s.tasks|), false)];
  }

  /** One `collect_once` that gives up while its collect has not so much as the lock. */
  lemma GiveUp(s: State) returns (steps: seq<Step>)
    requires AllQueued(s)
    ensures Possible(s, steps) && Calls(steps) == 1 && AllQueued(Run(s, steps))
    ensures UnclearedIn(Run(s, steps).tasks) == UnclearedIn(s.tasks) + 1
  {
    hide Do, Enabled, Run, Possible, Calls, UnclearedIn;
    var i := |s.actors|;
    GivesUp(s);
    Appends(s.actors, Actor(false, Claimed, false), s.tasks, Queued);
    steps := FourSteps(s, CollectOnce, StoreFlag(i), Spawn(i), TimeOut(i));
  }

  /** The loop alone can leave one collect behind, and every call one more, none of them having
      got the lock yet. */
  lemma {:induction false} BoundIsReached(k: nat) returns (steps: seq<Step>)
    ensures Possible(INIT, steps) && Calls(steps) == k && AllQueued(Run(INIT, steps))
    ensures UnclearedIn(Run(INIT, steps).tasks) == 1 + k
  {
    hide Run, Possible, Do, Enabled, Calls, UnclearedIn, AllQueued;
    if k == 0 {
      steps := LoopRound();
    } else {
      var before := BoundIsReached(k - 1);
      var more := GiveUp(Run(INIT, before));
      RunAppend(INIT, before, more);
      steps := before + more;
    }
  }

  const STALLED := State(true, [Actor(true, Waiting(0), false)], [Queued], true, 0, 0)

  lemma LoopRound() returns (steps: seq<Step>)
    ensures Possible(INIT, steps) && Calls(steps) == 0
    ensures Run(INIT, steps) == STALLED && UnclearedIn(STALLED.tasks) == 1 && AllQueued(STALLED)
  {
    hide Run, Possible, Calls;
    assert STALLED.tasks[..0] == [];
    var s1 := Do(INIT, Start);
    assert s1.actors == [Actor(true, Idle, false)];
    var s2 := Do(s1, Tick(0));
    assert s2.actors == [Actor(true, Claimed, false)];
    steps := FourSteps(INIT, Start, Tick(0), StoreFlag(0), Spawn(0));
  }

  // ---------------------------------------------------------------- one collect at a time

  predicate OneHolder(s: State) {
    forall t, u :: 0 <= t < u < |s.tasks| ==> s.tasks[t] != Collecting || s.tasks[u] != Collecting
  }

  /** However many are pending, at most one collect runs at a time. */
  lemma {:induction false} OneCollectAtATime(s: State, steps: seq<Step>)
    requires OneHolder(s) && Sound(s) && Possible(s, steps)
    ensures OneHolder(Run(s, steps))
    decreases |steps|
  {
    if steps != [] {
      HolderStep(s, steps[0]);
      StepSound(s, steps[0]);
      hide Do, Enabled, Sound, OneHolder;
      OneCollectAtATime(Do(s, steps[0]), steps[1..]);
    }
  }

  lemma HolderStep(s: State, step: Step)
    requires OneHolder(s) && Sound(s) && Enabled(s, step)
    ensures OneHolder(Do(s, step))
  {
    hide OwnTasks;
  }

  // ---------------------------------------------------------------- rounds and calls

  /** A call takes no notice of the flag: set or not, it may go on to a collect of its own, and
      leaves the flag as it is until it stores it. A tick takes a set flag for a reason to do
      nothing, and sets a clear one in the same step. */
  lemma CallsAndTicks(s: State, i: nat)
    ensures Enabled(s, CollectOnce) ==>
              var after := Do(s, CollectOnce);
              && after.flag == s.flag && after.tasks == s.tasks && |after.actors| == |s.actors| + 1
              && Enabled(after, StoreFlag(|s.actors|)) && Do(after, StoreFlag(|s.actors|)).flag
    ensures Enabled(s, Tick(i)) ==>
              var after := Do(s, Tick(i));
              after.flag && (s.flag ==> after == s) && (!s.flag ==> Enabled(after, StoreFlag(i)))
  {
  }

  lemma StaysDispatching(s: State, step: Step, i: nat)
    requires At(s, i, Dispatching) && s.actors[i].isLoop && Enabled(s, step) && step != Dispatched(i)
    ensures step != Tick(i) && At(Do(s, step), i, Dispatching) && Do(s, step).actors[i].isLoop
  {
  }

  lemma {:induction false} NoTickWhileDispatching(s: State, steps: seq<Step>, i: nat)
    requires At(s, i, Dispatching) && s.actors[i].isLoop && Possible(s, steps) && Dispatched(i) !in steps
    ensures Tick(i) !in steps
    decreases |steps|
  {
    if steps != [] {
      StaysDispatching(s, steps[0], i);
      hide Do, Enabled;
      NoTickWhileDispatching(Do(s, steps[0]), steps[1..], i);
      assert steps == [steps[0]] + steps[1..];
    }
  }

  /** A loop that has a snapshot does not take another tick before the snapshot is dispatched. */
  lemma DispatchedBeforeNextTick(s: State, steps: seq<Step>, i: nat)
    requires Enabled(s, SeeResult(i)) && s.actors[i].isLoop
    requires Possible(Do(s, SeeResult(i)), steps) && Tick(i) in steps
    ensures Dispatched(i) in steps
  {
    assert At(Do(s, SeeResult(i)), i, Dispatching) && Do(s, SeeResult(i)).actors[i].isLoop;
    hide Do, Enabled, Possible;
    if Dispatched(i) !in steps {
      NoTickWhileDispatching(Do(s, SeeResult(i)), steps, i);
    }
  }

  // ---------------------------------------------------------------- starting and stopping

  /** A running scheduler has one loop that is not told to leave, the newest; a stopped one has
      none. */
  predicate LoopsOk(s: State) {
    && (s.started ==> s.newest < |s.actors| && s.actors[s.newest].isLoop && s.actors[s.newest].pc != Gone)
    && forall i :: 0 <= i < |s.actors| && s.actors[i].isLoop ==>
         (!s.actors[i].signalled <==> s.started && i == s.newest)
  }

  lemma LoopsMove(s: State, i: nat, pc: Pc)
    requires LoopsOk(s) && i < |s.actors|
    requires s.actors[i].isLoop && !s.actors[i].signalled ==> pc != Gone
    ensures LoopsOk(Moved(s, i, pc))
  {
  }

  /** The flag, the tasks and the calls have no part in it. */
  lemma LoopsElsewhere(s: State, t: State)
    requires LoopsOk(s) && t.actors == s.actors && t.started == s.started && t.newest == s.newest
    ensures LoopsOk(t)
  {
  }

  lemma LoopsCall(s: State)
    requires LoopsOk(s) && Enabled(s, CollectOnce)
    ensures LoopsOk(Do(s, CollectOnce))
  {
  }

  lemma LoopsStop(s: State)
    requires LoopsOk(s)
    ensures LoopsOk(Do(s, Stop))
  {
  }

  lemma ActorMoves(s: State, step: Step)
    requires Enabled(s, step)
    requires || step.Exit? || step.Tick? || step.StoreFlag? || step.Spawn? || step.TimeOut? || step.SeeResult?
             || step.SeePanic? || step.ClearFlag? || step.Dispatched? || step.Drop?
    ensures step.i < |s.actors| && step.i < |Do(s, step).actors|
    ensures var after := Do(s, step);
            && after.actors == Moved(s, step.i, after.actors[step.i].pc).actors
            && after.started == s.started && after.newest == s.newest
            && (s.actors[step.i].isLoop && !s.actors[step.i].signalled && s.actors[step.i].pc != Gone ==>
                  after.actors[step.i].pc != Gone)
  {
  }

  lemma LoopStillThere(s: State, i: nat)
    requires LoopsOk(s) && i < |s.actors|
    ensures s.actors[i].isLoop && !s.actors[i].signalled ==> s.actors[i].pc != Gone
  {
  }

  lemma LoopsStep(s: State, step: Step)
    requires LoopsOk(s) && Enabled(s, step)
    ensures LoopsOk(Do(s, step))
  {
    match step {
      case Start => LoopsStart(s);
      case Stop => LoopsStop(s);
      case CollectOnce => LoopsCall(s);
      case Lock(_) => LoopsElsewhere(s, Do(s, step));
      case Return(_) => LoopsElsewhere(s, Do(s, step));
      case Finish(_) => LoopsElsewhere(s, Do(s, step));
      case Panic(_) => LoopsElsewhere(s, Do(s, step));
      case _ =>
        hide LoopsOk, Do, Enabled;
        ActorMoves(s, step);
        var i, pc := step.i, Do(s, step).actors[step.i].pc;
        LoopStillThere(s, i);
        LoopsMove(s, i, pc);
        LoopsElsewhere(Moved(s, i, pc), Do(s, step));
    }
  }

  lemma LoopsStart(s: State)
    requires LoopsOk(s) && Enabled(s, Start)
    ensures LoopsOk(Do(s, Start))
  {
  }

  /** However often it is started and stopped, at most one loop is not told to leave: there is one
      exactly while the scheduler is running, and it has not left. */
  lemma {:induction false} OneLoopRuns(s: State, steps: seq<Step>)
    requires LoopsOk(s) && Possible(s, steps)
    ensures LoopsOk(Run(s, steps))
    decreases |steps|
  {
    if steps != [] {
      LoopsStep(s, steps[0]);
      hide LoopsOk, Do, Enabled;
      OneLoopRuns(Do(s, steps[0]), steps[1..]);
    }
  }

  /** What starting and stopping do: a first start, like a call, waits for a collect that holds the
      lock; a second start changes nothing, a first adds a loop at rest, and
      a stop tells the newest loop to leave, wherever it stands. */
  lemma StartsAndStops(s: State)
    requires LoopsOk(s)
    ensures (exists t :: 0 <= t < |s.tasks| && s.tasks[t] == Collecting) ==>
              !Enabled(s, CollectOnce) && (Enabled(s, Start) <==> s.started)
    ensures s.started && Enabled(s, Start) ==> Do(s, Start) == s
    ensures !s.started && Enabled(s, Start) ==>
              var after := Do(s, Start);
              after.started && |after.actors| == |s.actors| + 1 && after.actors[..|s.actors|] == s.actors
              && after.newest == |s.actors| && after.actors[|s.actors|] == Actor(true, Idle, false)
              && after.flag == s.flag && after.tasks == s.tasks
    ensures var after := Do(s, Stop);
            && !after.started && after.flag == s.flag && after.tasks == s.tasks && |after.actors| == |s.actors|
            && forall i :: 0 <= i < |s.actors| ==>
                 after.actors[i] == if s.actors[i].isLoop then s.actors[i].(signalled := true) else s.actors[i]
  {
  }

  function StepsToRest(pc: Pc): nat {
    match pc case Claimed => 3 case Stored => 2 case Idle => 0 case Gone => 0 case _ => 1
  }

  /** A loop told to leave can always do so, whatever its collect is doing: at the latest when its
      wait is over. */
  lemma StoppedLoopCanLeave(s: State, i: nat) returns (more: seq<Step>)
    requires Sound(s) && i < |s.actors| && s.actors[i].isLoop && s.actors[i].signalled && s.actors[i].pc != Gone
    ensures Possible(s, more) && Calls(more) == 0
    ensures i < |Run(s, more).actors| && Run(s, more).actors[i].pc == Gone
    decreases StepsToRest(s.actors[i].pc)
  {
    hide Run, Possible, Calls;
    if s.actors[i].pc == Idle {
      Nothing(Do(s, Exit(i)));
      more := Then(s, Exit(i), []);
    } else {
      var step := TowardsRest(s, i);
      StepSound(s, step);
      more := StoppedLoopCanLeave(Do(s, step), i);
      more := Then(s, step, more);
    }
  }

  /** The steps of a round that always remain. */
  function TowardsRest(s: State, i: nat): (step: Step)
    requires Sound(s) && i < |s.actors| && s.actors[i].pc != Idle && s.actors[i].pc != Gone
    ensures Enabled(s, step)
  {
    match s.actors[i].pc
    case Claimed => StoreFlag(i)
    case Stored => Spawn(i)
    case Waiting(_) => TimeOut(i)
    case Joined(_) => ClearFlag(i)
    case _ => Dispatched(i)
  }

  // ---------------------------------------------------------------- a loop that never collects again

  /** A collect that panicked, and nobody waits for it any more. */
  predicate Abandoned(s: State, t: nat) {
    && t < |s.tasks| && s.tasks[t] == Panicked(false)
    && forall i :: 0 <= i < |s.actors| ==> TaskOf(s.actors[i]) != t
  }

  /** The flag is set, and there is nobody left to clear it: nothing is about to be spawned, no
      collect is live, and whoever waits waits for no panicked collect. */
  predicate Stuck(s: State) {
    && s.flag
    && (forall i :: 0 <= i < |s.actors| ==> !Spawning(s.actors[i]))
    && (forall t :: 0 <= t < |s.tasks| ==> !Live(s.tasks[t]))
    && (forall i :: 0 <= i < |s.actors| && 0 <= TaskOf(s.actors[i]) < |s.tasks| ==>
          s.tasks[TaskOf(s.actors[i])] != Panicked(false))
  }

  /** Steps that a stuck state does not allow. */
  lemma StuckDisables(s: State, step: Step)
    requires RealTasks(s.actors, s.tasks) && Enabled(s, step) && Stuck(s)
    ensures !step.StoreFlag? && !step.Spawn? && !step.Lock? && !step.Return? && !step.Finish? && !step.Panic?
    ensures !step.SeePanic? && !step.ClearFlag?
  {
  }

  /** An actor that spawns nothing and waits for nothing new leaves a stuck state stuck. */
  lemma StuckMove(s: State, i: nat, a: Actor)
    requires Stuck(s) && i < |s.actors| && !Spawning(a)
    requires TaskOf(a) == -1 || TaskOf(a) == TaskOf(s.actors[i])
    ensures Stuck(s.(actors := s.actors[i := a]))
  {
  }

  lemma StuckStep(s: State, step: Step)
    requires Sound(s) && Enabled(s, step) && Stuck(s) && !step.CollectOnce?
    ensures Stuck(Do(s, step)) && Do(s, step).tasks == s.tasks
  {
    StuckDisables(s, step);
    if step.Start? {
      hide Sound;
    } else if step.Stop? {
      if s.started && s.newest < |s.actors| {
        assert !Spawning(s.actors[s.newest]);
        StuckMove(s, s.newest, s.actors[s.newest].(signalled := true));
      }
      hide Sound;
    } else {
      assert s.flag;
      StuckMove(s, step.i, Do(s, step).actors[step.i]);
      hide Stuck, Sound;
      assert step.Tick? ==> Do(s, step) == s;
    }
  }

  /** Once stuck, then, `collect_once` apart, the flag stays set and no collect is ever started
      again: every tick is skipped, and so is every tick of any loop started later. */
  lemma {:induction false} StuckStays(s: State, steps: seq<Step>)
    requires Sound(s) && Stuck(s) && Possible(s, steps) && Calls(steps) == 0
    ensures Run(s, steps).flag && Run(s, steps).tasks == s.tasks && Stuck(Run(s, steps))
    decreases |steps|
  {
    if steps != [] {
      StuckStep(s, steps[0]);
      StepSound(s, steps[0]);
      hide Sound, Stuck, Do, Enabled;
      StuckStays(Do(s, steps[0]), steps[1..]);
    }
  }

  lemma PanicsLate()
    ensures Enabled(STALLED, Lock(0))
    ensures var s1 := Do(STALLED, Lock(0));
            && Enabled(s1, TimeOut(0))
            && (var s2 := Do(s1, TimeOut(0));
                Enabled(s2, Panic(0)) && Stuck(Do(s2, Panic(0))) && Abandoned(Do(s2, Panic(0)), 0))
  {
    var s1 := Do(STALLED, Lock(0));
    assert s1.tasks == [Collecting];
    var s2 := Do(s1, TimeOut(0));
    assert s2.actors == [Actor(true, Idle, false)] && s2.tasks == [Collecting];
    assert Do(s2, Panic(0)).tasks == [Panicked(false)];
  }

  /** It can happen: the wait times out and then the collect panics. */
  lemma TimeOutThenPanic() returns (steps: seq<Step>)
    ensures Possible(INIT, steps) && Calls(steps) == 0
    ensures Abandoned(Run(INIT, steps), 0) && Stuck(Run(INIT, steps))
  {
    hide Run, Possible, Calls, Do, Enabled, Stuck, Abandoned;
    var first := LoopRound();
    PanicsLate();
    var s1 := Do(STALLED, Lock(0));
    var s2 := Do(s1, TimeOut(0));
    Nothing(Do(s2, Panic(0)));
    var rest := Then(s2, Panic(0), []);
    rest := Then(s1, TimeOut(0), rest);
    rest := Then(STALLED, Lock(0), rest);
    RunAppend(INIT, first, rest);
    steps := first + rest;
  }

  const CALLED := State(true, [Actor(false, Waiting(0), false)], [Collecting], false, 0, 1)

  lemma CallStarts()
    ensures Enabled(INIT, CollectOnce) && Enabled(Do(INIT, CollectOnce), StoreFlag(0))
    ensures var s2 := Do(Do(INIT, CollectOnce), StoreFlag(0));
            && Enabled(s2, Spawn(0)) && Enabled(Do(s2, Spawn(0)), Lock(0))
            && Do(Do(s2, Spawn(0)), Lock(0)) == CALLED
  {
    var s1 := Do(INIT, CollectOnce);
    assert s1.actors == [Actor(false, Claimed, false)];
    var s2 := Do(s1, StoreFlag(0));
    assert s2.actors == [Actor(false, Stored, false)];
    var s3 := Do(s2, Spawn(0));
    assert s3.actors == [Actor(false, Waiting(0), false)] && s3.tasks == [Queued];
    assert Do(s3, Lock(0)).tasks == [Collecting];
  }

  lemma DropsEarly()
    ensures Enabled(CALLED, Drop(0))
    ensures var dropped := Do(CALLED, Drop(0));
            && Enabled(dropped, Panic(0))
            && Stuck(Do(dropped, Panic(0))) && Abandoned(Do(dropped, Panic(0)), 0)
  {
    var dropped := Do(CALLED, Drop(0));
    assert dropped.actors == [Actor(false, Gone, false)];
    assert Do(dropped, Panic(0)).tasks == [Panicked(false)];
  }

  /** Nor does it take a time-out: a `collect_once` that its caller drops while it waits leaves its
      collect behind, and if that panics, no loop started later ever collects. */
  lemma DropThenPanic() returns (steps: seq<Step>)
    ensures Possible(INIT, steps) && Calls(steps) == 1
    ensures Abandoned(Run(INIT, steps), 0) && Stuck(Run(INIT, steps))
  {
    hide Run, Possible, Calls, Do, Enabled, Stuck, Abandoned;
    CallStarts();
    DropsEarly();
    var first := FourSteps(INIT, CollectOnce, StoreFlag(0), Spawn(0), Lock(0));
    Nothing(Do(Do(CALLED, Drop(0)), Panic(0)));
    var rest := Then(Do(CALLED, Drop(0)), Panic(0), []);
    rest := Then(CALLED, Drop(0), rest);
    RunAppend(INIT, first, rest);
    steps := first + rest;
  }

  /** And it happens in no other way: in a reached state that is stuck, a collect has panicked
      with nobody waiting for it. */
  lemma StuckMeansAbandoned(steps: seq<Step>) returns (t: nat)
    requires Possible(INIT, steps) && Stuck(Run(INIT, steps))
    ensures Abandoned(Run(INIT, steps), t)
  {
    hide Run, Possible, Bounded, Stuck, Abandoned;
    InitBounded();
    RunBounded(INIT, steps);
    t := StuckHasAbandoned(Run(INIT, steps));
  }

  lemma StuckHasAbandoned(s: State) returns (t: nat)
    requires Bounded(s) && Stuck(s)
    ensures Abandoned(s, t)
  {
    hide SpawningIn, UnclearedIn, OwnTasks, RealTasks;
    NoneSpawning(s.actors);
    t := SomeUncleared(s.tasks);
  }

  lemma {:induction false} NoneSpawning(actors: seq<Actor>)
    requires forall i :: 0 <= i < |actors| ==> !Spawning(actors[i])
    ensures SpawningIn(actors) == 0
  {
    if actors != [] { NoneSpawning(actors[..|actors| - 1]); }
  }

  /** In any reached state, whatever was called: the flag can be cleared without `collect_once`
      if and only if the state is not stuck. */
  lemma FlagCanClearIffNotStuck(steps: seq<Step>)
    requires Possible(INIT, steps)
    ensures var s := Run(INIT, steps);
            (exists more :: Possible(s, more) && Calls(more) == 0 && !Run(s, more).flag) <==> !Stuck(s)
  {
    hide Run, Possible, Do, Enabled, Calls, Bounded, Stuck;
    InitBounded();
    RunBounded(INIT, steps);
    var s := Run(INIT, steps);
    BoundedSound(s);
    if Stuck(s) {
      forall more | Possible(s, more) && Calls(more) == 0 ensures Run(s, more).flag {
        StuckStays(s, more);
      }
    } else {
      var more := WayOut(s);
    }
  }

  lemma BoundedSound(s: State)
    requires Bounded(s)
    ensures Sound(s)
  {
  }

  /** With the loop alone, being stuck is exactly having an abandoned collect. */
  lemma StuckIffAbandonedWithoutCalls(steps: seq<Step>)
    requires Possible(INIT, steps) && Calls(steps) == 0
    ensures Stuck(Run(INIT, steps)) <==> exists t: nat :: Abandoned(Run(INIT, steps), t)
  {
    hide Run, Possible, Calls, Bounded, Stuck, Abandoned;
    InitBounded();
    RunBounded(INIT, steps);
    CallsCounted(INIT, steps);
    var s := Run(INIT, steps);
    if Stuck(s) {
      var t := StuckMeansAbandoned(steps);
    }
    if t: nat :| Abandoned(s, t) {
      AloneIsStuck(s, t);
    }
  }

  /** Corollary, with the loop alone: an abandoned collect is the end of collecting. */
  lemma AbandonedStopsTheLoop(s: State, steps: seq<Step>, t: nat)
    requires Bounded(s) && s.calls == 0 && Abandoned(s, t)
    requires Possible(s, steps) && Calls(steps) == 0
    ensures Run(s, steps).flag && Run(s, steps).tasks == s.tasks && Abandoned(Run(s, steps), t)
  {
    hide Run, Possible, Calls, Sound, Enabled, Do, SpawningIn, UnclearedIn;
    AloneIsStuck(s, t);
    StuckStays(s, steps);
  }

  /** And with the loop alone, the flag can be cleared if and only if no collect is abandoned. */
  lemma FlagCanClearIffNoneAbandoned(steps: seq<Step>)
    requires Possible(INIT, steps) && Calls(steps) == 0
    ensures var s := Run(INIT, steps);
            (exists more :: Possible(s, more) && Calls(more) == 0 && !Run(s, more).flag)
              <==> !exists t: nat :: Abandoned(s, t)
  {
    hide Run, Possible, Calls, Stuck, Abandoned;
    FlagCanClearIffNotStuck(steps);
    StuckIffAbandonedWithoutCalls(steps);
  }

  /** The only pending collect is abandoned. */
  lemma AloneIsStuck(s: State, t: nat)
    requires Bounded(s) && s.calls == 0 && Abandoned(s, t)
    ensures Stuck(s)
  {
    PendingWitness(s);
    UnclearedUpdate(s.tasks, t, Cleared);
    var others := s.tasks[t := Cleared];
    assert UnclearedIn(others) == 0 && SpawningIn(s.actors) == 0;
    forall u | 0 <= u < |s.tasks| && u != t ensures !Uncleared(s.tasks[u]) {
      if Uncleared(others[u]) { UnclearedUpdate(others, u, Cleared); }
    }
    hide SpawningIn, UnclearedIn, OwnTasks;
  }

  lemma {:induction false} SomeSpawning(actors: seq<Actor>) returns (i: nat)
    requires SpawningIn(actors) > 0
    ensures i < |actors| && Spawning(actors[i])
  {
    var last := |actors| - 1;
    if Spawning(actors[last]) { i := last; } else { i := SomeSpawning(actors[..last]); }
  }

  lemma {:induction false} SomeUncleared(tasks: seq<Task>) returns (t: nat)
    requires UnclearedIn(tasks) > 0
    ensures t < |tasks| && Uncleared(tasks[t])
  {
    var last := |tasks| - 1;
    if Uncleared(tasks[last]) { t := last; } else { t := SomeUncleared(tasks[..last]); }
  }

  /** Steps that end with the flag clear. */
  lemma WayOut(s: State) returns (more: seq<Step>)
    requires Sound(s) && !Stuck(s)
    ensures Possible(s, more) && Calls(more) == 0 && !Run(s, more).flag
  {
    hide Run, Possible, Calls, Sound;
    if !s.flag {
      more := [];
      Nothing(s);
    } else if t: nat :| t < |s.tasks| && Live(s.tasks[t]) {
      more := FinishLive(s, t);
    } else if i: nat :| i < |s.actors| && Spawning(s.actors[i]) {
      more := SpawnAndFinish(s, i);
    } else {
      var i: nat :| i < |s.actors| && 0 <= TaskOf(s.actors[i]) < |s.tasks|
                    && s.tasks[TaskOf(s.actors[i])] == Panicked(false);
      more := SeeAndClear(s, i);
    }
  }

  /** Whoever holds the lock returns and clears the flag; if nobody does, this one can take it. */
  lemma FinishLive(s: State, t: nat) returns (more: seq<Step>)
    requires t < |s.tasks| && Live(s.tasks[t])
    ensures Possible(s, more) && Calls(more) == 0 && !Run(s, more).flag
  {
    hide Run, Possible, Calls;
    if s.tasks[t] == Collected {
      Nothing(Do(s, Finish(t)));
      more := Then(s, Finish(t), []);
    } else if u: nat :| u < |s.tasks| && s.tasks[u] == Collecting {
      more := ReturnAndFinish(s, u);
    } else {
      more := ReturnAndFinish(Do(s, Lock(t)), t);
      more := Then(s, Lock(t), more);
    }
  }

  lemma ReturnAndFinish(s: State, t: nat) returns (more: seq<Step>)
    requires TaskIs(s, t, Collecting)
    ensures Possible(s, more) && Calls(more) == 0 && !Run(s, more).flag
  {
    hide Run, Possible, Calls;
    var returned := Do(s, Return(t));
    Nothing(Do(returned, Finish(t)));
    more := Then(returned, Finish(t), []);
    more := Then(s, Return(t), more);
  }

  lemma SpawnAndFinish(s: State, i: nat) returns (more: seq<Step>)
    requires i < |s.actors| && Spawning(s.actors[i])
    ensures Possible(s, more) && Calls(more) == 0 && !Run(s, more).flag
  {
    hide Run, Possible, Calls;
    var stored := if s.actors[i].pc == Claimed then Do(s, StoreFlag(i)) else s;
    more := FinishLive(Do(stored, Spawn(i)), |s.tasks|);
    more := Then(stored, Spawn(i), more);
    if s.actors[i].pc == Claimed {
      more := Then(s, StoreFlag(i), more);
    }
  }

  lemma SeeAndClear(s: State, i: nat) returns (more: seq<Step>)
    requires Sound(s) && i < |s.actors|
    requires var t := TaskOf(s.actors[i]); 0 <= t < |s.tasks| && s.tasks[t] == Panicked(false)
    ensures Possible(s, more) && Calls(more) == 0 && !Run(s, more).flag
  {
    hide Run, Possible, Calls;
    var joined := if s.actors[i].pc.Waiting? then Do(s, SeePanic(i)) else s;
    Nothing(Do(joined, ClearFlag(i)));
    more := Then(joined, ClearFlag(i), []);
    if s.actors[i].pc.Waiting? {
      more := Then(s, SeePanic(i), more);
    }
  }
}
