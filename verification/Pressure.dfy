/** The memory-pressure rule: the kernel's level, but only once it persists; one first alert
    per severity and episode, then reminders that back off. */
module Pressure {
  import opened Bytes
  import opened Rolling
  import opened Episodes

  const WINDOW := 60 * SECOND
  const SLOW_WINDOW := 300 * SECOND
  const PRESSURE_REARM := SLOW_WINDOW
  const PRESSURE_REMINDER_MAX := 4 * 60 * 60 * SECOND

  datatype PressureState = PressureState(
    since: Option<nat>, normalSince: Option<nat>, alerted: nat, lastAlert: Option<nat>, gap: nat,
    firstAlert: Option<nat>)

  const CALM := PressureState(None, None, 0, None, 0, None)

  datatype PressureAlert = PressureAlert(level: nat, sustained: nat, repeatAfter: Option<nat>)

  function OrElse(o: Option<nat>, now: nat): nat {
    match o case Some(t) => t case None => now
  }

  /** How long the level must have been above normal to be news. */
  function Required(level: nat): nat {
    if level >= 4 then WINDOW else SLOW_WINDOW
  }

  predicate IsNews(st: PressureState, now: nat, threshold: nat, level: nat) {
    level >= threshold && level > st.alerted && Since(now, OrElse(st.since, now)) >= Required(level)
  }

  predicate IsReminder(st: PressureState, now: nat, threshold: nat, level: nat) {
    level >= threshold && st.alerted > 0 && st.lastAlert.Some? && Since(now, st.lastAlert.value) >= st.gap
  }

  /** One evaluation at `now`; the rule is skipped without a threshold or a level. */
  function PressureStep(st: PressureState, now: nat, threshold: Option<nat>, level: Option<nat>)
    : (PressureState, Option<PressureAlert>)
  {
    if threshold.None? || level.None? then (st, None)
    else if level.value <= 1 then
      var normalSince := OrElse(st.normalSince, now);
      (if Since(now, normalSince) >= PRESSURE_REARM then CALM else st.(normalSince := Some(normalSince)), None)
    else
      var since := OrElse(st.since, now);
      var st := st.(normalSince := None, since := Some(since));
      var elapsed := Since(now, since);
      if IsNews(st, now, threshold.value, level.value) then
        (st.(alerted := level.value, gap := PERSIST_REMINDER, lastAlert := Some(now),
             firstAlert := Some(OrElse(st.firstAlert, now))),
         Some(PressureAlert(level.value, elapsed, None)))
      else if IsReminder(st, now, threshold.value, level.value) then
        (st.(gap := Min(st.gap * 2, PRESSURE_REMINDER_MAX), lastAlert := Some(now)),
         Some(PressureAlert(level.value, elapsed,
                            match st.firstAlert case Some(at) => Some(Since(now, at)) case None => None)))
      else
        (st, None)
  }

  /** The engine's `pressure_*` fields. */
  class PressureRule {
    var since: Option<nat>
    var normalSince: Option<nat>
    var alerted: nat
    var lastAlert: Option<nat>
    var gap: nat
    var firstAlert: Option<nat>

    function Value(): PressureState
      reads this
    {
      PressureState(since, normalSince, alerted, lastAlert, gap, firstAlert)
    }

    constructor ()
      ensures Value() == CALM
    {
      since, normalSince, alerted, lastAlert, gap, firstAlert := None, None, 0, None, 0, None;
    }

    /** The episode is over. */
    method ClearPressure()
      modifies this
      ensures Value() == CALM
    {
      since, normalSince, alerted, lastAlert, firstAlert, gap := None, None, 0, None, None, 0;
    }

    method Evaluate(now: nat, threshold: Option<nat>, level: Option<nat>) returns (alert: Option<PressureAlert>)
      modifies this
      ensures (Value(), alert) == PressureStep(old(Value()), now, threshold, level)
    {
      alert := None;
      if threshold.None? || level.None? {
        return;
      }
      if level.value <= 1 {
        if normalSince.None? {
          normalSince := Some(now);
        }
        if Since(now, normalSince.value) >= PRESSURE_REARM {
          ClearPressure();
        }
      } else {
        normalSince := None;
        if since.None? {
          since := Some(now);
        }
        var elapsed := Since(now, since.value);
        if level.value >= threshold.value && level.value > alerted && elapsed >= Required(level.value) {
          alerted := level.value;
          gap := PERSIST_REMINDER;
          if firstAlert.None? {
            firstAlert := Some(now);
          }
          lastAlert := Some(now);
          alert := Some(PressureAlert(level.value, elapsed, None));
        } else if level.value >= threshold.value && alerted > 0
          && lastAlert.Some? && Since(now, lastAlert.value) >= gap
        {
          gap := Min(gap * 2, PRESSURE_REMINDER_MAX);
          var repeatAfter := match firstAlert case Some(at) => Some(Since(now, at)) case None => None;
          lastAlert := Some(now);
          alert := Some(PressureAlert(level.value, elapsed, repeatAfter));
        }
      }
    }
  }
}

/** What the pressure rule does over whole runs, whatever the levels, and with the threshold
    free to change at every step. */
module PressureRuns {
  import opened Bytes
  import opened Collections
  import opened Rolling
  import opened Episodes
  import opened Pressure

  datatype Input = Input(now: nat, threshold: Option<nat>, level: Option<nat>)

  /** One alert of a run, and how many episodes had ended before it. */
  datatype Notice = Notice(at: nat, level: nat, sustained: nat, repeatAfter: Option<nat>, episode: nat)

  /** `reminders` counts the reminders since the last first-alert-at-a-severity, `newsAt`. */
  datatype Trace = Trace(state: PressureState, notes: seq<Notice>, ended: nat, newsAt: nat, reminders: nat, now: nat)

  const START := Trace(CALM, [], 0, 0, 0, 0)

  predicate Ends(st: PressureState, i: Input) {
    && i.threshold.Some? && i.level.Some? && i.level.value <= 1
    && Since(i.now, OrElse(st.normalSince, i.now)) >= PRESSURE_REARM
  }

  /** What this evaluation tells the user. */
  function Told(t: Trace, i: Input): Option<Notice> {
    match PressureStep(t.state, i.now, i.threshold, i.level).1
    case None => None
    case Some(a) => Some(Notice(i.now, a.level, a.sustained, a.repeatAfter, t.ended))
  }

  function Next(t: Trace, i: Input): Trace {
    var state := PressureStep(t.state, i.now, i.threshold, i.level).0;
    var ended := if Ends(t.state, i) then t.ended + 1 else t.ended;
    match Told(t, i)
    case None => Trace(state, t.notes, ended, t.newsAt, t.reminders, i.now)
    case Some(n) =>
      var news := n.repeatAfter.None?;
      Trace(state, t.notes + [n], ended,
            if news then i.now else t.newsAt, if news then 0 else t.reminders + 1, i.now)
  }

  function RunOf(inputs: seq<Input>): Trace {
    if inputs == [] then START else Next(RunOf(inputs[..|inputs| - 1]), inputs[|inputs| - 1])
  }

  predicate InTime(inputs: seq<Input>) {
    Ascending(inputs, (i: Input) => i.now)
  }

  // ---------------------------------------------------------------- the backoff

  /** The gap after `n` reminders: half an hour, doubling, at most four hours. */
  function Gap(n: nat): nat {
    if n == 0 then PERSIST_REMINDER else Min(Gap(n - 1) * 2, PRESSURE_REMINDER_MAX)
  }

  function Pow2(n: nat): (p: nat)
    ensures p > 0
  {
    if n == 0 then 1 else 2 * Pow2(n - 1)
  }

  /** The least time `n` reminders take: 30 minutes * (2^n - 1) for up to three, then 210
      minutes and four hours for each further one. */
  function Backoff(n: nat): nat {
    if n <= 3 then (Pow2(n) - 1) * (30 * 60 * SECOND)
    else 210 * 60 * SECOND + (n - 3) * (4 * 60 * 60 * SECOND)
  }

  lemma {:induction false} BackoffGrows(n: nat)
    ensures Backoff(n + 1) == Backoff(n) + Gap(n)
    ensures n >= 3 ==> Gap(n) == PRESSURE_REMINDER_MAX
  {
    assert Pow2(1) == 2 && Pow2(2) == 4 && Pow2(3) == 8;
    assert Gap(1) == 2 * PERSIST_REMINDER && Gap(2) == 4 * PERSIST_REMINDER && Gap(3) == PRESSURE_REMINDER_MAX;
    if n > 3 { BackoffGrows(n - 1); }
  }

  lemma {:induction false} GapAtLeast(n: nat)
    ensures Gap(n) >= PERSIST_REMINDER
  {
    if n > 0 { GapAtLeast(n - 1); }
  }

  // ---------------------------------------------------------------- notes of an episode

  predicate AllBy(notes: seq<Notice>, t: nat) {
    forall i :: 0 <= i < |notes| ==> notes[i].at <= t
  }

  predicate UpTo(notes: seq<Notice>, ended: nat) {
    forall i :: 0 <= i < |notes| ==> notes[i].episode <= ended
  }

  /** By `t`, every finished episode's notes were at least the re-arm time ago. */
  predicate RearmedBy(notes: seq<Notice>, ended: nat, t: nat) {
    forall i :: 0 <= i < |notes| && notes[i].episode < ended ==> t >= notes[i].at + PRESSURE_REARM
  }

  /** The first note of an episode. */
  function FirstOf(notes: seq<Notice>, episode: nat): Option<nat> {
    if notes == [] then None
    else if FirstOf(notes[..|notes| - 1], episode).Some? then FirstOf(notes[..|notes| - 1], episode)
    else if notes[|notes| - 1].episode == episode then Some(notes[|notes| - 1].at) else None
  }

  /** The worst level told in an episode. */
  function Worst(notes: seq<Notice>, episode: nat): nat {
    if notes == [] then 0
    else
      var n, before := notes[|notes| - 1], Worst(notes[..|notes| - 1], episode);
      if n.episode == episode && n.level > before then n.level else before
  }

  lemma {:induction false} WorstFacts(notes: seq<Notice>, episode: nat)
    ensures forall i :: 0 <= i < |notes| && notes[i].episode == episode ==> notes[i].level <= Worst(notes, episode)
    ensures Worst(notes, episode) > 0 ==>
              exists i :: 0 <= i < |notes| && notes[i].episode == episode && notes[i].level == Worst(notes, episode)
  {
    if notes != [] {
      var last := |notes| - 1;
      WorstFacts(notes[..last], episode);
      assert forall i :: 0 <= i < last ==> notes[..last][i] == notes[i];
    }
  }

  lemma {:induction false} FirstOfFacts(notes: seq<Notice>, episode: nat) returns (i: nat)
    ensures FirstOf(notes, episode).None? ==> forall j :: 0 <= j < |notes| ==> notes[j].episode != episode
    ensures FirstOf(notes, episode).Some? ==>
              (i < |notes| && notes[i].episode == episode && notes[i].at == FirstOf(notes, episode).value
               && forall j :: 0 <= j < i ==> notes[j].episode != episode)
  {
    i := 0;
    if notes != [] {
      var last := |notes| - 1;
      i := FirstOfFacts(notes[..last], episode);
      assert forall j :: 0 <= j < last ==> notes[..last][j] == notes[j];
      if FirstOf(notes[..last], episode).None? { i := last; }
    }
  }

  lemma Appended(notes: seq<Notice>, n: Notice, t: nat)
    ensures FirstOf(notes + [n], n.episode) == Some(OrElse(FirstOf(notes, n.episode), n.at))
    ensures Worst(notes + [n], n.episode)
         == if n.level > Worst(notes, n.episode) then n.level else Worst(notes, n.episode)
    ensures AllBy(notes, t) && n.at <= t ==> AllBy(notes + [n], t)
    ensures UpTo(notes, n.episode) ==> UpTo(notes + [n], n.episode)
    ensures forall s :: RearmedBy(notes, n.episode, s) ==> RearmedBy(notes + [n], n.episode, s)
  {
    assert (notes + [n])[..|notes|] == notes;
    hide FirstOf, Worst;
    LastOfAppended(notes, n);
  }

  lemma LastOfAppended(notes: seq<Notice>, n: Notice)
    ensures FirstOf(notes + [n], n.episode) == Some(OrElse(FirstOf(notes, n.episode), n.at))
    ensures Worst(notes + [n], n.episode)
         == if n.level > Worst(notes, n.episode) then n.level else Worst(notes, n.episode)
  {
    assert (notes + [n])[..|notes|] == notes;
  }

  /** An episode ends only after a normal stretch that followed every note. */
  lemma EpisodeOver(notes: seq<Notice>, ended: nat, normalSince: nat, now: nat)
    requires AllBy(notes, normalSince) && UpTo(notes, ended) && now >= normalSince + PRESSURE_REARM
    ensures RearmedBy(notes, ended + 1, now) && UpTo(notes, ended + 1)
    ensures FirstOf(notes, ended + 1).None? && Worst(notes, ended + 1) == 0
  {
    WorstFacts(notes, ended + 1);
    var i := FirstOfFacts(notes, ended + 1);
  }

  lemma Later(notes: seq<Notice>, ended: nat, t: nat, now: nat)
    requires t <= now
    ensures AllBy(notes, t) ==> AllBy(notes, now)
    ensures RearmedBy(notes, ended, t) ==> RearmedBy(notes, ended, now)
  {
  }

  // ---------------------------------------------------------------- invariant

  /** How an episode that has alerted shows in the fields. */
  predicate Alerting(t: Trace) {
    var st := t.state;
    t.notes != []
    && (var last := t.notes[|t.notes| - 1];
        && last.episode == t.ended && st.lastAlert == Some(last.at)
        && st.since.Some? && last.at >= st.since.value + Required(st.alerted)
        && st.firstAlert.Some?
        && st.gap == Gap(t.reminders)
        && last.at >= t.newsAt + Backoff(t.reminders))
  }

  /** How the fields reflect the notes so far. */
  predicate Reflects(t: Trace) {
    var st, notes := t.state, t.notes;
    && AllBy(notes, t.now) && UpTo(notes, t.ended) && RearmedBy(notes, t.ended, t.now)
    && st.alerted == Worst(notes, t.ended)
    && st.firstAlert == FirstOf(notes, t.ended)
    && (st.normalSince.Some? ==> (st.normalSince.value <= t.now && AllBy(notes, st.normalSince.value)))
    && (st.since.Some? ==> (st.since.value <= t.now && RearmedBy(notes, t.ended, st.since.value)))
    && (st.alerted > 0 ==> Alerting(t))
  }

  /** What a note says, measured against everything noted before it. */
  predicate Honest(notes: seq<Notice>, n: Notice) {
    && AllBy(notes, n.at) && UpTo(notes, n.episode)
    && n.sustained >= Required(n.level)
    // News exactly when worse than anything told in this episode
    && (n.repeatAfter.None? <==> n.level > Worst(notes, n.episode))
    // Otherwise, how long since this episode was first told
    && (n.repeatAfter.Some? ==>
          (var first := FirstOf(notes, n.episode); first.Some? && n.repeatAfter.value == Since(n.at, first.value)))
    // News may follow a finished episode only once re-armed and sustained again
    && (n.at >= n.sustained && RearmedBy(notes, n.episode, n.at - n.sustained))
  }

  lemma QuietStep(t: Trace, i: Input)
    requires Reflects(t) && t.now <= i.now && Told(t, i).None?
    ensures Reflects(Next(t, i)) && Next(t, i).notes == t.notes && Next(t, i).now == i.now
  {
    hide Backoff, Gap, FirstOf, Required, AllBy, RearmedBy, UpTo, Worst;
    Later(t.notes, t.ended, t.now, i.now);
    if Ends(t.state, i) {
      EpisodeOver(t.notes, t.ended, t.state.normalSince.value, i.now);
    }
  }

  lemma AlertFacts(t: Trace, i: Input)
    requires Reflects(t) && t.now <= i.now && Told(t, i).Some?
    ensures var n, st, since := Told(t, i).value, t.state, OrElse(t.state.since, i.now);
            && since <= i.now && RearmedBy(t.notes, t.ended, since)
            && n.at == i.now && n.episode == t.ended && n.sustained == i.now - since
            && n.sustained >= Required(n.level) && n.level > 1
            && (n.repeatAfter.None? <==> n.level > st.alerted)
            && (n.repeatAfter.None? ==>
                  Next(t, i).state == st.(normalSince := None, since := Some(since), alerted := n.level,
                                          gap := PERSIST_REMINDER, lastAlert := Some(i.now),
                                          firstAlert := Some(OrElse(st.firstAlert, i.now))))
            && (n.repeatAfter.Some? ==>
                  (st.alerted > 0 && st.lastAlert.Some? && Since(i.now, st.lastAlert.value) >= st.gap
                   && st.firstAlert.Some? && n.repeatAfter.value == Since(i.now, st.firstAlert.value)
                   && Next(t, i).state == st.(normalSince := None, since := Some(since), lastAlert := Some(i.now),
                                              gap := Min(st.gap * 2, PRESSURE_REMINDER_MAX))))
    ensures Next(t, i).notes == t.notes + [Told(t, i).value] && Next(t, i).ended == t.ended && Next(t, i).now == i.now
    ensures var news := Told(t, i).value.repeatAfter.None?;
            && Next(t, i).newsAt == (if news then i.now else t.newsAt)
            && Next(t, i).reminders == (if news then 0 else t.reminders + 1)
  {
    GapAtLeast(t.reminders);
    hide Backoff, Gap, FirstOf, AllBy, RearmedBy, UpTo, Worst;
    Later(t.notes, t.ended, t.now, i.now);
  }

  lemma AlertStep(t: Trace, i: Input)
    requires Reflects(t) && t.now <= i.now && Told(t, i).Some?
    ensures Reflects(Next(t, i)) && Next(t, i).now == i.now
    ensures Next(t, i).notes == t.notes + [Told(t, i).value] && Honest(t.notes, Told(t, i).value)
  {
    AlertHonest(t, i);
    hide Honest, Reflects, PressureStep, Told, Next;
    AlertFacts(t, i);
    AlertReflects(t, i);
  }

  lemma AlertReflects(t: Trace, i: Input)
    requires Reflects(t) && t.now <= i.now && Told(t, i).Some?
    ensures Reflects(Next(t, i))
  {
    hide Honest, Worst, FirstOf, AllBy, RearmedBy, UpTo, Required, PressureStep, Told, Next, Backoff, Gap;
    AlertFacts(t, i);
    var n := Told(t, i).value;
    Appended(t.notes, n, i.now);
    Later(t.notes, t.ended, t.now, i.now);
    BackoffSteps(t.reminders);
  }

  lemma BackoffSteps(n: nat)
    ensures Backoff(n + 1) == Backoff(n) + Gap(n)
    ensures Gap(n + 1) == Min(Gap(n) * 2, PRESSURE_REMINDER_MAX)
    ensures Gap(0) == PERSIST_REMINDER && Backoff(0) == 0
  {
    BackoffGrows(n);
  }

  lemma AlertHonest(t: Trace, i: Input)
    requires Reflects(t) && t.now <= i.now && Told(t, i).Some?
    ensures Honest(t.notes, Told(t, i).value)
  {
    hide Worst, FirstOf, AllBy, RearmedBy, UpTo, PressureStep, Told, Next, Backoff, Gap;
    AlertFacts(t, i);
    Later(t.notes, t.ended, t.now, i.now);
  }

  /** Every run keeps the fields and the notes in step, and every note is honest. */
  lemma {:induction false} RunReflects(inputs: seq<Input>)
    requires InTime(inputs)
    ensures Reflects(RunOf(inputs))
    ensures inputs != [] ==> RunOf(inputs).now == inputs[|inputs| - 1].now
    ensures var notes := RunOf(inputs).notes; forall k :: 0 <= k < |notes| ==> Honest(notes[..k], notes[k])
  {
    hide Reflects, Honest, Told, Next;
    if inputs == [] {
      StartReflects();
    } else {
      var before, i := inputs[..|inputs| - 1], inputs[|inputs| - 1];
      RunReflects(before);
      var t := RunOf(before);
      if Told(t, i).None? {
        QuietStep(t, i);
      } else {
        var n := Told(t, i).value;
        AlertStep(t, i);
        forall k | 0 <= k < |t.notes + [n]| ensures Honest((t.notes + [n])[..k], (t.notes + [n])[k]) {
          assert (t.notes + [n])[..k] == if k < |t.notes| then t.notes[..k] else t.notes;
        }
      }
    }
  }

  lemma StartReflects()
    ensures Reflects(START)
  {
  }

  // ---------------------------------------------------------------- what users are told

  /** `repeat_after` is absent exactly when the level is higher than any told this episode;
      otherwise it is the time since the first note of the episode, which was news. */
  lemma NewsIffWorse(inputs: seq<Input>, k: nat)
    requires InTime(inputs) && k < |RunOf(inputs).notes|
    ensures var notes := RunOf(inputs).notes;
            && (notes[k].repeatAfter.None? <==>
                  forall i :: 0 <= i < k && notes[i].episode == notes[k].episode ==> notes[i].level < notes[k].level)
            && (notes[k].repeatAfter.Some? ==>
                  exists i :: 0 <= i < k && notes[i].episode == notes[k].episode && notes[i].repeatAfter.None?
                    && notes[k].repeatAfter.value == notes[k].at - notes[i].at
                    && forall j :: 0 <= j < i ==> notes[j].episode != notes[k].episode)
  {
    var notes := RunOf(inputs).notes;
    hide RunOf;
    NewsIsWorse(inputs, k);
    if notes[k].repeatAfter.Some? {
      var i := ReminderCountsFrom(inputs, k);
    }
  }

  lemma NewsIsWorse(inputs: seq<Input>, k: nat)
    requires InTime(inputs) && k < |RunOf(inputs).notes|
    ensures var notes := RunOf(inputs).notes;
            && (notes[k].repeatAfter.None? <==>
                  forall i :: 0 <= i < k && notes[i].episode == notes[k].episode ==> notes[i].level < notes[k].level)
  {
    var notes := RunOf(inputs).notes;
    PositiveLevels(inputs, k);
    RunReflects(inputs);
    hide RunOf, RearmedBy, AllBy, UpTo, Worst, FirstOf, Reflects, InTime;
    var before, n := notes[..k], notes[k];
    assert Honest(before, n);
    hide Honest;
    WorstFacts(before, n.episode);
    assert forall i :: 0 <= i < k ==> before[i] == notes[i];
  }

  lemma ReminderCountsFrom(inputs: seq<Input>, k: nat) returns (i: nat)
    requires InTime(inputs) && k < |RunOf(inputs).notes| && RunOf(inputs).notes[k].repeatAfter.Some?
    ensures var notes := RunOf(inputs).notes;
            && i < k && notes[i].episode == notes[k].episode && notes[i].repeatAfter.None?
            && notes[k].repeatAfter.value == notes[k].at - notes[i].at
            && forall j :: 0 <= j < i ==> notes[j].episode != notes[k].episode
  {
    var notes := RunOf(inputs).notes;
    RunReflects(inputs);
    var before, n := notes[..k], notes[k];
    assert Honest(before, n);
    hide RunOf, RearmedBy, UpTo, Worst, FirstOf, Reflects, InTime;
    i := FirstOfFacts(before, n.episode);
    hide Honest;
    assert before[i] == notes[i] && notes[i].at <= n.at;
    assert forall j :: 0 <= j < i ==> before[j] == notes[j];
    NewsIsWorse(inputs, i);
  }

  /** Only levels above normal are ever told. */
  lemma {:induction false} PositiveLevels(inputs: seq<Input>, k: nat)
    requires k < |RunOf(inputs).notes|
    ensures RunOf(inputs).notes[k].level > 1
  {
    var t, i := RunOf(inputs[..|inputs| - 1]), inputs[|inputs| - 1];
    if k < |t.notes| {
      hide PressureStep;
      PositiveLevels(inputs[..|inputs| - 1], k);
    }
  }

  /** Two first alerts, the later no more severe: the machine was normal for five minutes
      between them, and then above normal for as long as that level requires. */
  lemma NewsSeparated(inputs: seq<Input>, i: nat, j: nat)
    requires InTime(inputs) && i < j < |RunOf(inputs).notes|
    requires var notes := RunOf(inputs).notes;
             notes[i].repeatAfter.None? && notes[j].repeatAfter.None? && notes[j].level <= notes[i].level
    ensures var notes := RunOf(inputs).notes;
            && notes[j].at
               >= notes[i].at + 5 * 60 * SECOND + (if notes[j].level >= 4 then 60 * SECOND else 5 * 60 * SECOND)
            && notes[i].episode < notes[j].episode
  {
    RunReflects(inputs);
    NewsIffWorse(inputs, j);
    var notes := RunOf(inputs).notes;
    hide RunOf, Worst, FirstOf;
    assert Honest(notes[..j], notes[j]);
    assert notes[..j][i] == notes[i];
  }

  /** With the kernel's own levels, an episode has at most two first alerts. */
  lemma AtMostTwoNews(inputs: seq<Input>, i: nat, j: nat, k: nat)
    requires InTime(inputs) && i < j < k < |RunOf(inputs).notes|
    requires forall x :: 0 <= x < |inputs| && inputs[x].level.Some? ==> inputs[x].level.value in {1, 2, 4}
    requires var notes := RunOf(inputs).notes; notes[i].episode == notes[j].episode == notes[k].episode
    ensures var notes := RunOf(inputs).notes;
            notes[i].repeatAfter.Some? || notes[j].repeatAfter.Some? || notes[k].repeatAfter.Some?
  {
    NewsIffWorse(inputs, j);
    NewsIffWorse(inputs, k);
    KernelLevels(inputs, i);
    KernelLevels(inputs, j);
    KernelLevels(inputs, k);
    hide RunOf;
  }

  lemma {:induction false} KernelLevels(inputs: seq<Input>, k: nat)
    requires forall x :: 0 <= x < |inputs| && inputs[x].level.Some? ==> inputs[x].level.value in {1, 2, 4}
    requires k < |RunOf(inputs).notes|
    ensures RunOf(inputs).notes[k].level in {2, 4}
  {
    var t, i := RunOf(inputs[..|inputs| - 1]), inputs[|inputs| - 1];
    if k < |t.notes| {
      hide PressureStep;
      KernelLevels(inputs[..|inputs| - 1], k);
    }
  }

  /** `notes[i]` is a first alert and every note after it up to `j` a reminder. */
  predicate OnlyRemindersAfter(notes: seq<Notice>, i: nat, j: nat) {
    && i <= j < |notes| && notes[i].repeatAfter.None?
    && forall k :: i < k <= j ==> notes[k].repeatAfter.Some?
  }

  /** A run's counters, read off its notes. */
  lemma {:induction false} CountersAreNotes(inputs: seq<Input>, i: nat)
    requires var notes := RunOf(inputs).notes; notes != [] && OnlyRemindersAfter(notes, i, |notes| - 1)
    ensures var t := RunOf(inputs); t.newsAt == t.notes[i].at && t.reminders == |t.notes| - 1 - i
  {
    var before, input := inputs[..|inputs| - 1], inputs[|inputs| - 1];
    var t, told := RunOf(before), Told(RunOf(before), input);
    assert told.Some? ==> told.value.at == input.now;
    hide PressureStep, Told;
    if told.None? {
      CountersAreNotes(before, i);
    } else if i < |t.notes| {
      RemindersBefore(t.notes, told.value, i);
      CountersAreNotes(before, i);
    }
  }

  lemma RemindersBefore(notes: seq<Notice>, n: Notice, i: nat)
    requires i < |notes| && OnlyRemindersAfter(notes + [n], i, |notes|)
    ensures OnlyRemindersAfter(notes, i, |notes| - 1) && n.repeatAfter.Some? && (notes + [n])[i] == notes[i]
  {
    assert forall k :: 0 <= k < |notes| ==> (notes + [n])[k] == notes[k];
    assert (notes + [n])[|notes|] == n;
  }

  /** A run's last note obeys the backoff. */
  lemma {:induction false} LastNoteBacksOff(inputs: seq<Input>)
    requires InTime(inputs) && RunOf(inputs).notes != []
    ensures var t := RunOf(inputs); t.notes[|t.notes| - 1].at >= t.newsAt + Backoff(t.reminders)
  {
    var before, input := inputs[..|inputs| - 1], inputs[|inputs| - 1];
    hide PressureStep, Told, Backoff;
    if Told(RunOf(before), input).None? {
      LastNoteBacksOff(before);
    } else {
      LastAlerting(inputs);
    }
  }

  lemma LastAlerting(inputs: seq<Input>)
    requires InTime(inputs) && inputs != [] && Told(RunOf(inputs[..|inputs| - 1]), inputs[|inputs| - 1]).Some?
    ensures var t := RunOf(inputs); t.notes != [] && t.notes[|t.notes| - 1].at >= t.newsAt + Backoff(t.reminders)
  {
    var before := inputs[..|inputs| - 1];
    RunReflects(before);
    RunReflects(inputs);
    AlertFacts(RunOf(before), inputs[|inputs| - 1]);
    hide Backoff, Gap, FirstOf, AllBy, RearmedBy, UpTo, Worst, PressureStep, Told, Honest;
  }

  /** The run as it was when its `j`th note had just been made. */
  lemma {:induction false} WhenNoted(inputs: seq<Input>, j: nat) returns (m: nat)
    requires j < |RunOf(inputs).notes|
    ensures m <= |inputs| && RunOf(inputs[..m]).notes == RunOf(inputs).notes[..j + 1]
  {
    var last := |inputs| - 1;
    hide PressureStep;
    if j < |RunOf(inputs[..last]).notes| {
      m := WhenNoted(inputs[..last], j);
      assert inputs[..last][..m] == inputs[..m];
      assert RunOf(inputs).notes[..j + 1] == RunOf(inputs[..last]).notes[..j + 1];
    } else {
      m := |inputs|;
      assert inputs[..m] == inputs;
      assert RunOf(inputs).notes[..j + 1] == RunOf(inputs).notes;
    }
  }

  /** After a first alert, `n` reminders take at least the backoff of `n`, and belong to its
      episode. */
  lemma RemindersBackOff(inputs: seq<Input>, i: nat, j: nat)
    requires InTime(inputs) && OnlyRemindersAfter(RunOf(inputs).notes, i, j)
    ensures var notes := RunOf(inputs).notes;
            && notes[j].at >= notes[i].at + Backoff(j - i)
            && notes[j].episode == notes[i].episode
  {
    var m := WhenNoted(inputs, j);
    var notes := RunOf(inputs).notes;
    SameEpisode(inputs, i, j);
    hide RunOf, Backoff;
    var told := RunOf(inputs[..m]).notes;
    assert OnlyRemindersAfter(told, i, |told| - 1);
    CountersAreNotes(inputs[..m], i);
    LastNoteBacksOff(inputs[..m]);
  }

  lemma EpisodesGrow(inputs: seq<Input>, a: nat, b: nat)
    requires InTime(inputs) && a <= b < |RunOf(inputs).notes|
    ensures RunOf(inputs).notes[a].episode <= RunOf(inputs).notes[b].episode
  {
    hide RunOf, Reflects, InTime, Worst, FirstOf, RearmedBy, AllBy;
    RunReflects(inputs);
    var notes := RunOf(inputs).notes;
    if a < b {
      assert Honest(notes[..b], notes[b]);
      assert notes[..b][a] == notes[a];
    }
  }

  lemma SameEpisode(inputs: seq<Input>, i: nat, j: nat)
    requires InTime(inputs) && OnlyRemindersAfter(RunOf(inputs).notes, i, j)
    ensures RunOf(inputs).notes[j].episode == RunOf(inputs).notes[i].episode
  {
    hide RunOf, InTime;
    if i < j {
      var f := ReminderCountsFrom(inputs, j);
      EpisodesGrow(inputs, f, i);
      EpisodesGrow(inputs, i, j);
    }
  }

  // ---------------------------------------------------------------- and nothing that lasts goes untold

  /** From the `k`th evaluation on the rule was on and the level above normal. */
  predicate AboveSince(inputs: seq<Input>, k: nat) {
    && k < |inputs|
    && forall j :: k <= j < |inputs| ==>
         inputs[j].threshold.Some? && inputs[j].level.Some? && inputs[j].level.value > 1
  }

  lemma SinceNotLater(inputs: seq<Input>)
    requires InTime(inputs) && inputs != []
    ensures var st := RunOf(inputs[..|inputs| - 1]).state;
            st.since.Some? ==> st.since.value <= inputs[|inputs| - 1].now
  {
    var before := inputs[..|inputs| - 1];
    assert before == [] ==> RunOf(before) == START;
    hide RunOf, Honest;
    RunReflects(before);
  }

  lemma SinceKept(t: Trace, i: Input)
    requires i.threshold.Some? && i.level.Some? && i.level.value > 1
    ensures Next(t, i).state.since == Some(OrElse(t.state.since, i.now))
  {
  }

  lemma {:induction false} SinceReachesBack(inputs: seq<Input>, k: nat)
    requires InTime(inputs) && AboveSince(inputs, k)
    ensures var st := RunOf(inputs).state; st.since.Some? && st.since.value <= inputs[k].now
  {
    hide Next;
    var before, i := inputs[..|inputs| - 1], inputs[|inputs| - 1];
    SinceKept(RunOf(before), i);
    if k < |before| {
      SinceReachesBack(before, k);
    } else {
      SinceNotLater(inputs);
    }
  }

  /** A level at or over the threshold that has been above normal for as long as it requires
      has been told in this episode, at that severity or a worse one. */
  lemma LastingLevelIsTold(inputs: seq<Input>, k: nat)
    requires InTime(inputs) && AboveSince(inputs, k)
    requires var i := inputs[|inputs| - 1];
             && i.level.value >= i.threshold.value
             && i.now >= inputs[k].now + if i.level.value >= 4 then 60 * SECOND else 5 * 60 * SECOND
    ensures var t := RunOf(inputs);
            exists n :: 0 <= n < |t.notes| && t.notes[n].episode == t.ended
              && t.notes[n].level >= inputs[|inputs| - 1].level.value
  {
    var t := RunOf(inputs);
    SinceReachesBack(inputs, k);
    ToldByThen(inputs);
    RunReflects(inputs);
    hide RunOf, Honest;
    WorstFacts(t.notes, t.ended);
  }

  /** Once `since` is long enough ago, the level at hand has been alerted. */
  lemma ToldByThen(inputs: seq<Input>)
    requires inputs != [] && InTime(inputs) && AboveSince(inputs, |inputs| - 1)
    requires var i, st := inputs[|inputs| - 1], RunOf(inputs).state;
             i.level.value >= i.threshold.value && st.since.Some? && i.now >= st.since.value + Required(i.level.value)
    ensures RunOf(inputs).state.alerted >= inputs[|inputs| - 1].level.value
  {
    var before, i := inputs[..|inputs| - 1], inputs[|inputs| - 1];
    assert RunOf(inputs) == Next(RunOf(before), i);
    hide RunOf, Next, InTime;
    ToldInStep(RunOf(before), i);
  }

  lemma ToldInStep(t: Trace, i: Input)
    requires i.threshold.Some? && i.level.Some? && i.level.value > 1 && i.level.value >= i.threshold.value
    requires var st := Next(t, i).state; st.since.Some? && i.now >= st.since.value + Required(i.level.value)
    ensures Next(t, i).state.alerted >= i.level.value
  {
  }

  lemma {:induction false} GapAtMost(n: nat)
    ensures Gap(n) <= PRESSURE_REMINDER_MAX
  {
  }

  /** While the level is at the threshold in an episode that has been told, the last notice is
      never more than four hours old. */
  lemma NeverSilentForLong(inputs: seq<Input>)
    requires inputs != [] && InTime(inputs) && AboveSince(inputs, |inputs| - 1)
    requires var i := inputs[|inputs| - 1]; i.level.value >= i.threshold.value
    requires RunOf(inputs).state.alerted > 0
    ensures var t := RunOf(inputs);
            t.notes != [] && inputs[|inputs| - 1].now < t.notes[|t.notes| - 1].at + 4 * 60 * 60 * SECOND
  {
    hide Honest, Reflects, PressureStep, Told, Next, Gap, Ends, Required;
    var before, i := inputs[..|inputs| - 1], inputs[|inputs| - 1];
    RunReflects(before);
    var t := RunOf(before);
    assert before == [] ==> t.now == 0;
    assert RunOf(inputs) == Next(t, i);
    if Told(t, i).Some? {
      ToldNow(t, i);
    } else {
      GapAtMost(t.reminders);
      SilenceMeansRecent(t, i);
      QuietStep(t, i);
    }
  }

  lemma ToldNow(t: Trace, i: Input)
    requires Told(t, i).Some?
    ensures Next(t, i).notes == t.notes + [Told(t, i).value] && Told(t, i).value.at == i.now
  {
    hide PressureStep;
  }

  lemma SilenceMeansRecent(t: Trace, i: Input)
    requires Reflects(t) && t.now <= i.now && Told(t, i).None?
    requires i.threshold.Some? && i.level.Some? && i.level.value > 1 && i.level.value >= i.threshold.value
    requires Next(t, i).state.alerted > 0
    ensures t.notes != [] && Since(i.now, t.notes[|t.notes| - 1].at) < Gap(t.reminders)
  {
    hide AllBy, UpTo, RearmedBy, Worst, FirstOf, Backoff, Gap;
  }

  // ---------------------------------------------------------------- said of the levels alone

  lemma ToldMeets(t: Trace, i: Input)
    ensures var n := Told(t, i);
            n.Some? ==> i.threshold.Some? && i.level == Some(n.value.level) && n.value.level >= i.threshold.value
                        && n.value.at == i.now
  {
  }

  /** Every notice is of an evaluation at its time, of the level seen there, and that level is at
      or above the threshold then in force. */
  lemma {:induction false} NoticesMeetThreshold(inputs: seq<Input>, k: nat) returns (x: nat)
    requires k < |RunOf(inputs).notes|
    ensures var n := RunOf(inputs).notes[k];
            && x < |inputs| && inputs[x].now == n.at && inputs[x].level == Some(n.level)
            && inputs[x].threshold.Some? && n.level >= inputs[x].threshold.value
  {
    hide Told;
    var before, i := inputs[..|inputs| - 1], inputs[|inputs| - 1];
    ToldMeets(RunOf(before), i);
    if k < |RunOf(before).notes| {
      x := NoticesMeetThreshold(before, k);
    } else {
      x := |inputs| - 1;
    }
  }

  /** When the level of a spell first was above normal, and since when it has been normal again;
      five minutes of that end the spell. Evaluations without a threshold or a level count for
      nothing. */
  datatype Spell = Spell(start: Option<nat>, calm: Option<nat>)

  function SpellOf(inputs: seq<Input>): Spell {
    if inputs == [] then Spell(None, None)
    else
      var spell, i := SpellOf(inputs[..|inputs| - 1]), inputs[|inputs| - 1];
      if i.threshold.None? || i.level.None? then spell
      else if i.level.value > 1 then Spell(Some(if spell.start.Some? then spell.start.value else i.now), None)
      else
        var calm := if spell.calm.Some? then spell.calm.value else i.now;
        if i.now >= calm + 5 * 60 * SECOND then Spell(None, None) else Spell(spell.start, Some(calm))
  }

  lemma {:induction false} StateIsSpell(inputs: seq<Input>)
    ensures RunOf(inputs).state.since == SpellOf(inputs).start
    ensures RunOf(inputs).state.normalSince == SpellOf(inputs).calm
  {
    if inputs != [] { StateIsSpell(inputs[..|inputs| - 1]); }
  }

  /** An episode ends exactly with its spell: with five minutes of normal levels. */
  lemma EpisodesEndWithSpells(inputs: seq<Input>)
    requires inputs != []
    ensures var before, i := inputs[..|inputs| - 1], inputs[|inputs| - 1];
            var calm := if SpellOf(before).calm.Some? then SpellOf(before).calm.value else i.now;
            RunOf(inputs).ended
            == RunOf(before).ended
               + if i.threshold.Some? && i.level.Some? && i.level.value <= 1 && i.now >= calm + 5 * 60 * SECOND then 1
                 else 0
  {
    StateIsSpell(inputs[..|inputs| - 1]);
  }

  /** The wait before the next reminder after `n` of them. */
  function Wait(n: nat): nat {
    Min(Pow2(n) * (30 * 60 * SECOND), 4 * 60 * 60 * SECOND)
  }

  lemma {:induction false} GapIsWait(n: nat)
    ensures Gap(n) == Wait(n)
  {
    if n > 0 {
      GapIsWait(n - 1);
      assert Pow2(n) == 2 * Pow2(n - 1) && Gap(n) == Min(Gap(n - 1) * 2, 4 * 60 * 60 * SECOND);
      hide Pow2, Gap;
    }
  }

  /** When an evaluation tells of a level, given what has been told: the level is above normal and
      at the threshold, and either it is worse than anything told this episode and has been above
      normal for five minutes, or one if critical, or something has been told this episode and
      the last notice is as long ago as the wait for the next reminder. */
  lemma ToldExactly(inputs: seq<Input>)
    requires inputs != [] && InTime(inputs)
    ensures var t, i, spell := RunOf(inputs[..|inputs| - 1]), inputs[|inputs| - 1], SpellOf(inputs);
            var told, worst := Told(t, i), Worst(t.notes, t.ended);
            && (told.Some? <==>
                  && i.threshold.Some? && i.level.Some? && i.level.value > 1 && i.level.value >= i.threshold.value
                  && (|| (i.level.value > worst
                          && i.now >= spell.start.value + if i.level.value >= 4 then 60 * SECOND else 5 * 60 * SECOND)
                      || (worst > 0 && i.now >= t.notes[|t.notes| - 1].at + Wait(t.reminders))))
            && (told.Some? ==> told.value.sustained == i.now - spell.start.value)
  {
    var before, i := inputs[..|inputs| - 1], inputs[|inputs| - 1];
    assert before == [] ==> RunOf(before).now == 0;
    RunReflects(before);
    hide RunOf, Honest, InTime;
    StateIsSpell(before);
    GapIsWait(RunOf(before).reminders);
    GapAtLeast(RunOf(before).reminders);
    ToldWhen(RunOf(before), i, SpellOf(before));
  }

  lemma ToldWhen(t: Trace, i: Input, spell: Spell)
    requires Reflects(t) && t.now <= i.now && t.state.since == spell.start
    ensures var told, worst, start := Told(t, i), Worst(t.notes, t.ended), OrElse(spell.start, i.now);
            && (told.Some? <==>
                  && i.threshold.Some? && i.level.Some? && i.level.value > 1 && i.level.value >= i.threshold.value
                  && (|| (i.level.value > worst
                          && i.now >= start + if i.level.value >= 4 then 60 * SECOND else 5 * 60 * SECOND)
                      || (worst > 0 && t.notes != [] && i.now >= t.notes[|t.notes| - 1].at + Gap(t.reminders))))
            && (told.Some? ==> told.value.sustained == i.now - start)
  {
    GapAtLeast(t.reminders);
    hide Worst, FirstOf, RearmedBy, UpTo, Gap, Backoff;
    assert t.notes != [] ==> t.notes[|t.notes| - 1].at <= i.now;
  }
}
