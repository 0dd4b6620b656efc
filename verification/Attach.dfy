/** The daemon's history buffer, and how a client attaches to it while snapshots keep coming. */
module Attach {
  import opened Bytes
  import opened Collections

  /** A snapshot, by its timestamp in whole seconds and whatever else it carries. */
  datatype Snapshot = Snapshot(second: int, content: seq<char>)

  // ---------------------------------------------------------------- the buffer

  /** Old snapshots leave from the front, but never the newest. */
  function Prune(queue: seq<Snapshot>, retention: int): seq<Snapshot> {
    if |queue| > 1 && queue[|queue| - 1].second - queue[0].second > retention then
      Prune(queue[1..], retention)
    else
      queue
  }

  class HistoryBuffer {
    const retention: int
    var snapshots: seq<Snapshot>

    constructor (retention: int)
      ensures this.retention == retention && snapshots == []
    {
      this.retention := retention;
      snapshots := [];
    }

    method Push(s: Snapshot)
      modifies this
      ensures snapshots == Prune(old(snapshots) + [s], retention)
    {
      snapshots := snapshots + [s];
      while |snapshots| > 1
        invariant snapshots != []
        invariant Prune(snapshots, retention) == Prune(old(snapshots) + [s], retention)
        decreases |snapshots|
      {
        var span := snapshots[|snapshots| - 1].second - snapshots[0].second;
        if span > retention {
          snapshots := snapshots[1..];
        } else {
          break;
        }
      }
    }
  }

  /** The buffer after a run of pushes. */
  function Buffer(pushed: seq<Snapshot>, retention: int): seq<Snapshot> {
    if pushed == [] then []
    else Prune(Buffer(pushed[..|pushed| - 1], retention) + [pushed[|pushed| - 1]], retention)
  }

  predicate IsSuffix(s: seq<Snapshot>, of: seq<Snapshot>) {
    |s| <= |of| && s == of[|of| - |s|..]
  }

  lemma {:induction false} PruneKeepsSuffix(queue: seq<Snapshot>, retention: int)
    requires queue != []
    ensures Prune(queue, retention) != [] && IsSuffix(Prune(queue, retention), queue)
  {
    if |queue| > 1 && queue[|queue| - 1].second - queue[0].second > retention {
      PruneKeepsSuffix(queue[1..], retention);
      SuffixOfSuffix(Prune(queue[1..], retention), queue[1..], queue);
    }
  }

  lemma SuffixOfSuffix(a: seq<Snapshot>, b: seq<Snapshot>, c: seq<Snapshot>)
    requires IsSuffix(a, b) && IsSuffix(b, c)
    ensures IsSuffix(a, c)
  {
  }

  lemma SuffixNext(a: seq<Snapshot>, b: seq<Snapshot>, x: Snapshot)
    requires IsSuffix(a, b)
    ensures IsSuffix(a + [x], b + [x])
  {
    assert (b + [x])[|b| - |a|..] == b[|b| - |a|..] + [x];
  }

  lemma SuffixOfAll(s: seq<Snapshot>)
    ensures IsSuffix([], s)
  {
  }

  /** Whatever the clock does, the buffer holds the newest snapshots, and always the last. */
  lemma {:induction false} BufferIsSuffix(pushed: seq<Snapshot>, retention: int)
    ensures IsSuffix(Buffer(pushed, retention), pushed)
    ensures pushed != [] ==> Buffer(pushed, retention) != []
  {
    hide Prune, IsSuffix;
    if pushed == [] {
      assert IsSuffix([], pushed) by { SuffixOfAll(pushed); }
    } else {
      var last := |pushed| - 1;
      BufferIsSuffix(pushed[..last], retention);
      var held := Buffer(pushed[..last], retention);
      PruneKeepsSuffix(held + [pushed[last]], retention);
      SuffixNext(held, pushed[..last], pushed[last]);
      assert pushed[..last] + [pushed[last]] == pushed;
      SuffixOfSuffix(Buffer(pushed, retention), held + [pushed[last]], pushed);
    }
  }

  predicate InOrder(pushed: seq<Snapshot>) {
    Ascending(pushed, (s: Snapshot) => s.second)
  }

  /** Whether the snapshot is within the retention span of the newest. */
  predicate Retained(pushed: seq<Snapshot>, i: nat, retention: int)
    requires i < |pushed|
  {
    pushed[|pushed| - 1].second - pushed[i].second <= retention
  }

  lemma {:induction false} PruneStopsAtFirstKept(queue: seq<Snapshot>, retention: int) returns (k: nat)
    requires queue != []
    ensures k < |queue| && Prune(queue, retention) == queue[k..]
    ensures k < |queue| - 1 ==> queue[|queue| - 1].second - queue[k].second <= retention
    ensures forall i :: 0 <= i < k ==> queue[|queue| - 1].second - queue[i].second > retention
  {
    k := 0;
    if |queue| > 1 && queue[|queue| - 1].second - queue[0].second > retention {
      var rest := PruneStopsAtFirstKept(queue[1..], retention);
      k := rest + 1;
      assert queue[1..][rest..] == queue[k..];
    }
  }

  /** Where the buffer starts in what was pushed. */
  function StartOf(pushed: seq<Snapshot>, retention: int): (start: nat)
    ensures start + |Buffer(pushed, retention)| == |pushed| && Buffer(pushed, retention) == pushed[start..]
  {
    BufferIsSuffix(pushed, retention);
    |pushed| - |Buffer(pushed, retention)|
  }

  /** A push drops exactly a run of snapshots too old for the new one. */
  lemma PushDrops(pushed: seq<Snapshot>, retention: int)
    requires pushed != []
    ensures var last := |pushed| - 1;
            var was, start := StartOf(pushed[..last], retention), StartOf(pushed, retention);
            && was <= start <= last
            && (start < last ==> pushed[last].second - pushed[start].second <= retention)
            && forall i :: was <= i < start ==> pushed[last].second - pushed[i].second > retention
  {
    var was, start := StartOf(pushed[..|pushed| - 1], retention), StartOf(pushed, retention);
    PushPrunes(pushed, retention);
    hide Buffer, Prune, StartOf;
    var k := PruneStopsAtFirstKept(pushed[was..], retention);
    assert start == was + k;
    assert forall i :: was <= i < |pushed| ==> pushed[was..][i - was] == pushed[i];
  }

  lemma PushPrunes(pushed: seq<Snapshot>, retention: int)
    requires pushed != []
    ensures var was := StartOf(pushed[..|pushed| - 1], retention);
            Buffer(pushed, retention) == Prune(pushed[was..], retention)
  {
    var last := |pushed| - 1;
    var was := StartOf(pushed[..last], retention);
    hide StartOf, Prune;
    assert pushed[..last][was..] + [pushed[last]] == pushed[was..];
  }

  /** With a clock that does not run backwards, the buffer is exactly the pushed snapshots that
      are within the retention span of the newest one. */
  lemma {:induction false} BufferExact(pushed: seq<Snapshot>, retention: nat)
    requires InOrder(pushed)
    ensures var start := StartOf(pushed, retention);
            && Buffer(pushed, retention) == pushed[start..]
            && forall i :: 0 <= i < |pushed| ==> (i >= start <==> Retained(pushed, i, retention))
  {
    BufferIsSuffix(pushed, retention);
    hide Buffer, Prune;
    if pushed != [] {
      var last := |pushed| - 1;
      var before := pushed[..last];
      BufferExact(before, retention);
      PushDrops(pushed, retention);
      var was, start := StartOf(before, retention), StartOf(pushed, retention);
      forall i | 0 <= i < |pushed| ensures i >= start <==> Retained(pushed, i, retention) {
        if i < was {
          assert !Retained(before, i, retention);
          assert before[last - 1].second <= pushed[last].second;
        } else if start <= i < last {
          assert pushed[start].second <= pushed[i].second;
        }
      }
    }
  }

  // ---------------------------------------------------------------- attaching

  datatype Step = Push(snapshot: Snapshot) | Send | Subscribe | Copy | Deliver

  /** One publisher, which pushes and then sends, and one client.

      `sent` counts the snapshots broadcast; `subscribedAt` and `copiedAt` are how many had been
      sent, and pushed, at those moments; `stream` is what the subscription has received. */
  datatype State = State(
    pushed: seq<Snapshot>, sent: nat, subscribedAt: Option<nat>, stream: seq<Snapshot>,
    copiedAt: Option<nat>, history: seq<Snapshot>, delivered: nat)

  const INIT := State([], 0, None, [], None, [], 0)

  predicate Enabled(s: State, step: Step) {
    match step
    case Push(_) => s.sent == |s.pushed|
    case Send => s.sent < |s.pushed|
    case Subscribe => s.subscribedAt.None?
    case Copy => s.copiedAt.None?
    case Deliver => s.copiedAt.Some? && s.delivered < |s.stream|
  }

  function Do(s: State, step: Step, retention: int): State
    requires Enabled(s, step)
  {
    match step
    case Push(x) => s.(pushed := s.pushed + [x])
    case Send =>
      // Nobody is told who had not subscribed
      s.(sent := s.sent + 1,
         stream := if s.subscribedAt.Some? then s.stream + [s.pushed[s.sent]] else s.stream)
    case Subscribe => s.(subscribedAt := Some(s.sent))
    case Copy => s.(copiedAt := Some(|s.pushed|), history := Buffer(s.pushed, retention))
    case Deliver => s.(delivered := s.delivered + 1)
  }

  predicate Possible(s: State, steps: seq<Step>, retention: int)
    decreases |steps|
  {
    steps == [] || (Enabled(s, steps[0]) && Possible(Do(s, steps[0], retention), steps[1..], retention))
  }

  function Run(s: State, steps: seq<Step>, retention: int): State
    requires Possible(s, steps, retention)
    decreases |steps|
  {
    if steps == [] then s else Run(Do(s, steps[0], retention), steps[1..], retention)
  }

  /** The frames a client has been written: the copied history, then the stream. */
  function Frames(s: State): seq<Snapshot>
    requires s.delivered <= |s.stream|
  {
    s.history + s.stream[..s.delivered]
  }

  predicate Sound(s: State) {
    && s.sent <= |s.pushed| <= s.sent + 1
    && s.delivered <= |s.stream|
    && (s.subscribedAt.None? ==> s.stream == [])
    && (s.subscribedAt.Some? ==>
          s.subscribedAt.value <= s.sent && s.stream == s.pushed[s.subscribedAt.value..s.sent])
    && (s.copiedAt.None? ==> s.history == [])
    && (s.copiedAt.Some? ==>
          s.copiedAt.value <= |s.pushed| && IsSuffix(s.history, s.pushed[..s.copiedAt.value])
          && (s.copiedAt.value > 0 ==> s.history != []))
  }

  lemma StepSound(s: State, step: Step, retention: int)
    requires Sound(s) && Enabled(s, step)
    ensures Sound(Do(s, step, retention))
  {
    match step {
      case Push(x) => assert forall n :: 0 <= n <= |s.pushed| ==> (s.pushed + [x])[..n] == s.pushed[..n];
      case Copy =>
        assert s.pushed[..|s.pushed|] == s.pushed;
        BufferIsSuffix(s.pushed, retention);
      case _ =>
    }
  }

  /** The client subscribed no later than it copied. */
  predicate SubscribedFirst(s: State) {
    s.copiedAt.Some? ==> s.subscribedAt.Some? && s.subscribedAt.value <= s.copiedAt.value
  }

  lemma {:induction false} RunSound(s: State, steps: seq<Step>, retention: int)
    requires Sound(s) && Possible(s, steps, retention)
    ensures Sound(Run(s, steps, retention))
    decreases |steps|
  {
    if steps != [] {
      hide Sound, Do, Enabled;
      StepSound(s, steps[0], retention);
      RunSound(Do(s, steps[0], retention), steps[1..], retention);
    }
  }

  /** The client subscribes, and only then copies, as the daemon does. */
  predicate DaemonOrder(steps: seq<Step>) {
    forall i :: 0 <= i < |steps| && steps[i].Copy? ==> exists j :: 0 <= j < i && steps[j].Subscribe?
  }

  lemma {:induction false} OrderKept(s: State, steps: seq<Step>, retention: int)
    requires Sound(s) && Possible(s, steps, retention) && SubscribedFirst(s)
    requires s.subscribedAt.Some? || DaemonOrder(steps)
    ensures SubscribedFirst(Run(s, steps, retention))
    decreases |steps|
  {
    if steps != [] {
      var next := Do(s, steps[0], retention);
      StepSound(s, steps[0], retention);
      if s.subscribedAt.None? {
        assert !steps[0].Copy?;
        if !steps[0].Subscribe? {
          forall i | 0 <= i < |steps[1..]| && steps[1..][i].Copy?
            ensures exists j :: 0 <= j < i && steps[1..][j].Subscribe?
          {
            assert steps[i + 1].Copy?;
            var j :| 0 <= j < i + 1 && steps[j].Subscribe?;
            assert steps[1..][j - 1].Subscribe?;
          }
        }
      }
      OrderKept(next, steps[1..], retention);
    }
  }

  /** For every interleaving of pushes and sends with an attaching client: the frames are the
      copied suffix, then an unbroken run of the snapshots starting no later than where that
      suffix ends. So no snapshot from the oldest copied one onward is missing, a duplicate
      being all that can happen; and when the client has caught up, at most the one snapshot
      pushed and not yet sent is still to come. */
  lemma AttachHasNoHole(steps: seq<Step>, retention: int) returns (start: nat)
    requires Possible(INIT, steps, retention) && DaemonOrder(steps)
    requires Run(INIT, steps, retention).copiedAt.Some?
    ensures var s := Run(INIT, steps, retention);
            && s.delivered <= |s.stream| && s.subscribedAt.Some? && s.sent <= |s.pushed|
            && (var c, from := s.copiedAt.value, s.subscribedAt.value;
                && start <= c <= |s.pushed| && from <= c && from + s.delivered <= s.sent
                && (c > 0 ==> start < c)
                && Frames(s) == s.pushed[start..c] + s.pushed[from..from + s.delivered]
                && (forall i :: start <= i < |s.pushed| && (i < c || i < from + s.delivered) ==>
                      s.pushed[i] in Frames(s))
                && (s.delivered == |s.stream| ==>
                      (from + s.delivered == s.sent && |s.pushed| <= s.sent + 1
                       && forall i :: start <= i < s.sent ==> s.pushed[i] in Frames(s))))
  {
    hide Run, Possible, DaemonOrder, Sound, SubscribedFirst, IsSuffix, Frames;
    InitSound();
    RunSound(INIT, steps, retention);
    OrderKept(INIT, steps, retention);
    var s := Run(INIT, steps, retention);
    start := Positions(s);
    FramesAre(s, start);
    InFrames(s, start, s.copiedAt.value, s.subscribedAt.value);
  }

  lemma InitSound()
    ensures Sound(INIT) && SubscribedFirst(INIT)
  {
  }

  predicate CopyKept(s: State, retention: int) {
    s.copiedAt.Some? ==> s.copiedAt.value <= |s.pushed| && s.history == Buffer(s.pushed[..s.copiedAt.value], retention)
  }

  /** What is copied is the history buffer as it was at that moment. */
  lemma {:induction false} CopyIsBuffer(s: State, steps: seq<Step>, retention: int)
    requires CopyKept(s, retention) && Possible(s, steps, retention)
    ensures CopyKept(Run(s, steps, retention), retention)
    decreases |steps|
  {
    if steps != [] {
      CopyStep(s, steps[0], retention);
      hide CopyKept, Do, Enabled;
      CopyIsBuffer(Do(s, steps[0], retention), steps[1..], retention);
    }
  }

  lemma CopyStep(s: State, step: Step, retention: int)
    requires CopyKept(s, retention) && Enabled(s, step)
    ensures CopyKept(Do(s, step, retention), retention)
  {
    hide Buffer;
    match step {
      case Push(x) =>
        if s.copiedAt.Some? { assert (s.pushed + [x])[..s.copiedAt.value] == s.pushed[..s.copiedAt.value]; }
      case Copy => assert s.pushed[..|s.pushed|] == s.pushed;
      case _ =>
    }
  }

  /** Where the copied history starts in what was pushed, and how the counts lie. */
  lemma Positions(s: State) returns (start: nat)
    requires Sound(s) && SubscribedFirst(s) && s.copiedAt.Some?
    ensures s.delivered <= |s.stream| && s.subscribedAt.Some? && s.sent <= |s.pushed| <= s.sent + 1
    ensures var c, from := s.copiedAt.value, s.subscribedAt.value;
            && start + |s.history| == c <= |s.pushed| && from <= c && from + |s.stream| == s.sent
            && (c > 0 ==> start < c)
  {
    start := s.copiedAt.value - |s.history|;
  }

  lemma FramesAre(s: State, start: nat)
    requires Sound(s) && s.copiedAt.Some? && s.subscribedAt.Some? && s.sent <= |s.pushed|
    requires start + |s.history| == s.copiedAt.value <= |s.pushed|
    requires s.subscribedAt.value + |s.stream| == s.sent && s.delivered <= |s.stream|
    ensures var c, from := s.copiedAt.value, s.subscribedAt.value;
            Frames(s) == s.pushed[start..c] + s.pushed[from..from + s.delivered]
  {
    var c, from := s.copiedAt.value, s.subscribedAt.value;
    Piece(s.pushed, start, c, c);
    assert s.history == s.pushed[..c][start..];
    assert s.stream == s.pushed[from..s.sent];
    hide Sound, IsSuffix;
    assert s.pushed[from..s.sent][..s.delivered] == s.pushed[from..from + s.delivered];
  }

  lemma Piece(q: seq<Snapshot>, a: nat, b: nat, c: nat)
    requires a <= b <= c <= |q|
    ensures q[..b][a..] == q[a..b]
  {
  }

  lemma InFrames(s: State, start: nat, c: nat, from: nat)
    requires s.delivered <= |s.stream| && start <= c <= |s.pushed| && from <= c && from + s.delivered <= |s.pushed|
    requires Frames(s) == s.pushed[start..c] + s.pushed[from..from + s.delivered]
    ensures forall i :: start <= i < |s.pushed| && (i < c || i < from + s.delivered) ==> s.pushed[i] in Frames(s)
  {
    hide Frames;
    forall i | start <= i < |s.pushed| && (i < c || i < from + s.delivered) ensures s.pushed[i] in Frames(s) {
      if i < c {
        assert s.pushed[start..c][i - start] == s.pushed[i];
      } else {
        assert s.pushed[from..from + s.delivered][i - from] == s.pushed[i];
      }
    }
  }

  /** The order matters: a client that copied first could miss a snapshot for good. */
  lemma CopyingFirstLeavesAHole(a: Snapshot, b: Snapshot)
    requires a != b
    ensures var steps := [Push(a), Copy, Send, Push(b), Send, Subscribe];
            && Possible(INIT, steps, 0)
            && (var s := Run(INIT, steps, 0);
                && s.pushed == [a, b] && s.sent == 2 && s.subscribedAt.Some?
                && s.delivered == |s.stream| && Frames(s) == [a] && b !in Frames(s))
  {
    hide Possible, Run, Buffer;
    var steps := [Push(a), Copy, Send, Push(b), Send, Subscribe];
    BufferOfOne(a);
    assert INIT.pushed + [a] == [a] && [a] + [b] == [a, b];
    var s1 := State([a], 0, None, [], None, [], 0);
    var s2 := State([a], 0, None, [], Some(1), [a], 0);
    var s3 := State([a], 1, None, [], Some(1), [a], 0);
    var s4 := State([a, b], 1, None, [], Some(1), [a], 0);
    var s5 := State([a, b], 2, None, [], Some(1), [a], 0);
    var s6 := State([a, b], 2, Some(2), [], Some(1), [a], 0);
    NothingElse(s6, 0);
    assert steps[6..] == [];
    Then(s5, steps, 5, s6, 0);
    Then(s4, steps, 4, s5, 0);
    Then(s3, steps, 3, s4, 0);
    Then(s2, steps, 2, s3, 0);
    Then(s1, steps, 1, s2, 0);
    Then(INIT, steps, 0, s1, 0);
    assert steps[0..] == steps && s6.stream[..0] == [];
  }

  lemma BufferOfOne(a: Snapshot)
    ensures Buffer([a], 0) == [a]
  {
    assert [a][..0] == [];
  }

  lemma NothingElse(s: State, retention: int)
    ensures Possible(s, [], retention) && Run(s, [], retention) == s
  {
  }

  lemma Then(s: State, steps: seq<Step>, k: nat, next: State, retention: int)
    requires k < |steps| && Enabled(s, steps[k]) && Do(s, steps[k], retention) == next
    requires Possible(next, steps[k + 1..], retention)
    ensures Possible(s, steps[k..], retention)
    ensures Run(s, steps[k..], retention) == Run(next, steps[k + 1..], retention)
  {
    hide Do, Enabled;
    assert steps[k..][0] == steps[k] && steps[k..][1..] == steps[k + 1..];
  }
}
