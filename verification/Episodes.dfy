/** Per-(process, rule) alert episodes: notify on a crossing, follow up once, then stay quiet
    until the condition clears. */
module Episodes {
  import opened Bytes
  import opened Collections
  import opened Rolling

  const PERSIST_REMINDER := 30 * 60 * SECOND

  datatype Kind = CpuKind | MemoryKind | AppCpuKind | AppMemoryKind

  datatype Key = Key(pid: Pid, kind: Kind)

  datatype Episode = Episode(started: nat, reminded: bool)

  datatype Notify = New | Reminder(elapsed: nat)

  /** `repeat_after`: how long the condition had been going, for a follow-up. */
  function Elapsed(n: Notify): Option<nat> {
    match n case New => None case Reminder(e) => Some(e)
  }

  /** What is kept about one key. */
  datatype Entry = Entry(active: Option<Episode>, lastAlert: Option<nat>)

  const BLANK := Entry(None, None)

  datatype Book = Book(active: map<Key, Episode>, lastAlert: map<Key, nat>)

  const EMPTY := Book(map[], map[])

  function Look(book: Book, key: Key): Entry {
    Entry(if key in book.active then Some(book.active[key]) else None,
          if key in book.lastAlert then Some(book.lastAlert[key]) else None)
  }

  /** Whether one key notifies now, and why. */
  function Decide(e: Entry, now: nat, cooldown: nat): Option<Notify> {
    match e.active
    case Some(episode) =>
      var elapsed := Since(now, episode.started);
      if episode.reminded || elapsed < PERSIST_REMINDER then None else Some(Reminder(elapsed))
    case None =>
      if e.lastAlert.Some? && Since(now, e.lastAlert.value) < cooldown then None else Some(New)
  }

  function After(e: Entry, now: nat, cooldown: nat): Entry {
    match Decide(e, now, cooldown)
    case None => e
    case Some(New) => Entry(Some(Episode(now, false)), Some(now))
    case Some(Reminder(_)) =>
      Entry(match e.active case Some(ep) => Some(ep.(reminded := true)) case None => None, Some(now))
  }

  function Store(book: Book, key: Key, e: Entry): Book {
    Book(match e.active case Some(ep) => book.active[key := ep] case None => book.active - {key},
         match e.lastAlert case Some(t) => book.lastAlert[key := t] case None => book.lastAlert - {key})
  }

  function Notified(book: Book, key: Key, now: nat, cooldown: nat): Book {
    Store(book, key, After(Look(book, key), now, cooldown))
  }

  function Cleared(book: Book, key: Key): Book {
    Store(book, key, Look(book, key).(active := None))
  }

  function Kept(book: Book, keep: Key -> bool): Book {
    Book(map k | k in book.active && keep(k) :: book.active[k],
         map k | k in book.lastAlert && keep(k) :: book.lastAlert[k])
  }

  class EpisodeState {
    var active: map<Key, Episode>
    var lastAlert: map<Key, nat>

    function Value(): Book
      reads this
    {
      Book(active, lastAlert)
    }

    constructor ()
      ensures Value() == EMPTY
    {
      active, lastAlert := map[], map[];
    }

    method Notify(key: Key, now: nat, cooldown: nat) returns (decision: Option<Notify>)
      modifies this
      ensures decision == Decide(Look(old(Value()), key), now, cooldown)
      ensures Value() == Notified(old(Value()), key, now, cooldown)
    {
      if key in active {
        var episode := active[key];
        var elapsed := Since(now, episode.started);
        if episode.reminded || elapsed < PERSIST_REMINDER {
          decision := None;
        } else {
          active := active[key := episode.(reminded := true)];
          decision := Some(Reminder(elapsed));
        }
      } else {
        var tooSoon := key in lastAlert && Since(now, lastAlert[key]) < cooldown;
        decision := if tooSoon then None else Some(New);
      }
      if decision.Some? {
        lastAlert := lastAlert[key := now];
      }
      if decision == Some(New) {
        active := active[key := Episode(now, false)];
      }
      StoreSame(old(Value()), key);
    }

    method Clear(key: Key)
      modifies this
      ensures Value() == Cleared(old(Value()), key)
    {
      active := active - {key};
      StoreSame(old(Value()), key);
    }

    method Retain(keep: Key -> bool)
      modifies this
      ensures Value() == Kept(old(Value()), keep)
    {
      active := map k | k in active && keep(k) :: active[k];
      lastAlert := map k | k in lastAlert && keep(k) :: lastAlert[k];
    }
  }

  lemma StoreSame(book: Book, key: Key)
    ensures Store(book, key, Look(book, key)) == book
  {
    assert key !in book.active ==> book.active - {key} == book.active;
    assert key !in book.lastAlert ==> book.lastAlert - {key} == book.lastAlert;
  }

  /** What happens to one key happens to no other. */
  lemma StoreElsewhere(book: Book, key: Key, e: Entry, other: Key)
    ensures Look(Store(book, key, e), key) == e
    ensures other != key ==> Look(Store(book, key, e), other) == Look(book, other)
  {
  }

  // ---------------------------------------------------------------- the two retain passes

  predicate IsAppKind(kind: Kind) {
    kind == AppCpuKind || kind == AppMemoryKind
  }

  /** The application pass keeps every per-process key. */
  function AppKeep(groups: set<Pid>): Key -> bool {
    (k: Key) => !IsAppKind(k.kind) || k.pid in groups
  }

  /** The process pass keeps every application key. */
  function ProcessKeep(pids: set<Pid>): Key -> bool {
    (k: Key) => IsAppKind(k.kind) || k.pid in pids
  }

  lemma PassesDoNotInterfere(book: Book, present: set<Pid>, key: Key)
    ensures !IsAppKind(key.kind) ==> Look(Kept(book, AppKeep(present)), key) == Look(book, key)
    ensures IsAppKind(key.kind) ==> Look(Kept(book, ProcessKeep(present)), key) == Look(book, key)
    ensures IsAppKind(key.kind) ==>
              Look(Kept(book, AppKeep(present)), key) == if key.pid in present then Look(book, key) else BLANK
    ensures !IsAppKind(key.kind) ==>
              Look(Kept(book, ProcessKeep(present)), key) == if key.pid in present then Look(book, key) else BLANK
  {
  }

  // ---------------------------------------------------------------- one key between drops

  /** What the engine does with one key while its process stays: the condition holds, with the
      cooldown of the moment, or it no longer does. */
  datatype Op = Holds(at: nat, cooldown: nat) | Lapses(at: nat)

  function Applied(e: Entry, op: Op): Entry {
    match op
    case Holds(at, cooldown) => After(e, at, cooldown)
    case Lapses(_) => e.(active := None)
  }

  datatype Note = Note(at: nat, what: Notify, cooldown: nat, pos: nat)

  datatype KeyRun = KeyRun(entry: Entry, notes: seq<Note>)

  predicate InTime(ops: seq<Op>) {
    Ascending(ops, (op: Op) => op.at)
  }

  function RunKey(ops: seq<Op>): KeyRun {
    if ops == [] then KeyRun(BLANK, [])
    else
      var last := |ops| - 1;
      var before := RunKey(ops[..last]);
      var notes :=
        if ops[last].Lapses? then before.notes
        else
          match Decide(before.entry, ops[last].at, ops[last].cooldown)
          case None => before.notes
          case Some(what) => before.notes + [Note(ops[last].at, what, ops[last].cooldown, last)];
      KeyRun(Applied(before.entry, ops[last]), notes)
  }

  predicate LapsedAfter(ops: seq<Op>, pos: nat) {
    exists p :: pos < p < |ops| && ops[p].Lapses?
  }

  /** Two notifications in a row: a follow-up comes after its own crossing and at least half an
      hour later; a crossing comes only after the condition lapsed, and its cooldown after
      whatever was notified last. */
  predicate Follows(ops: seq<Op>, a: Note, b: Note) {
    && a.at <= b.at && a.pos < b.pos < |ops|
    && match b.what
       case Reminder(elapsed) => a.what == New && elapsed == b.at - a.at >= PERSIST_REMINDER
       case New => b.at - a.at >= b.cooldown && exists p :: a.pos < p < b.pos && ops[p].Lapses?
  }

  /** The entry is what the notes so far amount to. */
  predicate Reflects(ops: seq<Op>, run: KeyRun) {
    var notes := run.notes;
    if notes == [] then run.entry == BLANK
    else
      var last := notes[|notes| - 1];
      && last.pos < |ops| && last.at <= ops[|ops| - 1].at
      && run.entry.lastAlert == Some(last.at)
      && match run.entry.active
         case None => LapsedAfter(ops, last.pos)
         case Some(ep) =>
           if ep.reminded then last.what.Reminder? else last.what == New && ep.started == last.at
  }

  lemma {:induction false} NotesFollow(ops: seq<Op>)
    requires InTime(ops)
    ensures Reflects(ops, RunKey(ops))
    ensures RunKey(ops).notes != [] ==> RunKey(ops).notes[0].what == New
    ensures forall i :: 0 <= i < |RunKey(ops).notes| - 1 ==>
              Follows(ops, RunKey(ops).notes[i], RunKey(ops).notes[i + 1])
  {
    if ops != [] {
      var last := |ops| - 1;
      var before := ops[..last];
      NotesFollow(before);
      var was, now := RunKey(before).notes, RunKey(ops).notes;
      forall i | 0 <= i < |was| - 1 ensures Follows(ops, was[i], was[i + 1]) {
        FollowsLonger(before, ops[last], was[i], was[i + 1]);
        assert before + [ops[last]] == ops;
      }
      if was != [] {
        var note := was[|was| - 1];
        if p :| note.pos < p < |before| && before[p].Lapses? {
          assert ops[p].Lapses?;
        }
      }
      assert ops[last].Lapses? ==> forall pos: nat :: pos < last ==> LapsedAfter(ops, pos);
    }
  }

  lemma FollowsLonger(ops: seq<Op>, next: Op, a: Note, b: Note)
    requires Follows(ops, a, b)
    ensures Follows(ops + [next], a, b)
  {
    if b.what == New {
      var p :| a.pos < p < b.pos && ops[p].Lapses?;
      assert (ops + [next])[p].Lapses?;
    }
  }

  /** Two notifications on from one, at least one cooldown has passed. */
  lemma TwoOn(ops: seq<Op>, c: nat, i: nat)
    requires InTime(ops) && i + 2 < |RunKey(ops).notes|
    requires forall k :: 0 <= k < |RunKey(ops).notes| ==> RunKey(ops).notes[k].cooldown >= c
    ensures RunKey(ops).notes[i + 2].at >= RunKey(ops).notes[i].at + c
  {
    NotesFollow(ops);
    var notes := RunKey(ops).notes;
    hide RunKey;
    assert Follows(ops, notes[i], notes[i + 1]) && Follows(ops, notes[i + 1], notes[i + 2]);
  }

  lemma {:induction false} NotesSpread(ops: seq<Op>, c: nat, i: nat, k: nat)
    requires InTime(ops) && i + 2 * k < |RunKey(ops).notes|
    requires forall n :: 0 <= n < |RunKey(ops).notes| ==> RunKey(ops).notes[n].cooldown >= c
    ensures RunKey(ops).notes[i + 2 * k].at >= RunKey(ops).notes[i].at + c * k
  {
    hide RunKey;
    if k > 0 {
      NotesSpread(ops, c, i, k - 1);
      TwoOn(ops, c, i + 2 * (k - 1));
      assert c * k == c * (k - 1) + c;
    }
  }

  lemma CountFits(c: nat, k: nat, span: nat)
    requires c > 0 && c * k <= span
    ensures k <= span / c
  {
    var q := span / c;
    assert c * (q + 1) == c * q + c > span;
    if k > q {
      Grows(c, q + 1, k);
    }
  }

  lemma {:induction false} Grows(c: nat, a: nat, b: nat)
    requires a <= b
    ensures c * a <= c * b
    decreases b - a
  {
    if a < b {
      Grows(c, a, b - 1);
      assert c * b == c * (b - 1) + c;
    }
  }

  /** In any span of time a key notifies at most twice per cooldown, and twice more. */
  lemma NotificationsBounded(ops: seq<Op>, c: nat, span: nat, i: nat, j: nat)
    requires InTime(ops) && c > 0 && i <= j < |RunKey(ops).notes|
    requires forall n :: 0 <= n < |RunKey(ops).notes| ==> RunKey(ops).notes[n].cooldown >= c
    requires RunKey(ops).notes[j].at <= RunKey(ops).notes[i].at + span
    ensures j - i + 1 <= 2 * (span / c + 1)
  {
    var k := (j - i) / 2;
    NotesSpread(ops, c, i, k);
    NotesFollow(ops);
    var notes := RunKey(ops).notes;
    if i + 2 * k < j {
      assert Follows(ops, notes[i + 2 * k], notes[j]);
    }
    CountFits(c, k, span);
  }

  /** Silence is always for a reason: while the condition holds, it has been told since it last
      lapsed, or the last notification is within the cooldown. */
  lemma HoldingIsTold(ops: seq<Op>)
    requires InTime(ops) && ops != [] && ops[|ops| - 1].Holds?
    ensures var notes, now := RunKey(ops).notes, ops[|ops| - 1];
            notes != []
            && (var last := notes[|notes| - 1];
                !LapsedAfter(ops, last.pos) || now.at - last.at < now.cooldown)
  {
    NotesFollow(ops);
    ActiveSinceNote(ops);
    hide Reflects, Follows;
  }

  /** An active episode is one whose last notification no lapse has followed. */
  lemma {:induction false} ActiveSinceNote(ops: seq<Op>)
    requires InTime(ops)
    ensures var run := RunKey(ops);
            && (run.entry.active.Some? ==> run.notes != [] && !LapsedAfter(ops, run.notes[|run.notes| - 1].pos))
            && (ops != [] && ops[|ops| - 1].Holds? && run.entry.active.None? ==>
                  (run.notes != []
                   && ops[|ops| - 1].at - run.notes[|run.notes| - 1].at < ops[|ops| - 1].cooldown))
  {
    NotesFollow(ops);
    if ops != [] {
      var before, op := ops[..|ops| - 1], ops[|ops| - 1];
      NotesFollow(before);
      ActiveSinceNote(before);
      hide Follows;
      var notes := RunKey(before).notes;
      if notes != [] && op.Holds? && !LapsedAfter(before, notes[|notes| - 1].pos) {
        StillHolding(ops, notes[|notes| - 1].pos);
      }
    }
  }

  lemma StillHolding(ops: seq<Op>, pos: nat)
    requires ops != [] && ops[|ops| - 1].Holds? && !LapsedAfter(ops[..|ops| - 1], pos)
    ensures !LapsedAfter(ops, pos)
  {
    var before := ops[..|ops| - 1];
    forall p | pos < p < |ops| ensures !ops[p].Lapses? {
      if p < |before| { assert ops[p] == before[p]; }
    }
  }

  /** A condition that has held for half an hour since it was told is followed up. */
  lemma FollowUpComes(ops: seq<Op>)
    requires InTime(ops) && ops != [] && ops[|ops| - 1].Holds? && RunKey(ops).entry.active.Some?
    requires ops[|ops| - 1].at >= RunKey(ops).entry.active.value.started + PERSIST_REMINDER
    ensures var notes := RunKey(ops).notes; notes != [] && notes[|notes| - 1].what.Reminder?
  {
    NotesFollow(ops);
    hide Follows;
  }

  // ---------------------------------------------------------------- the book as many keys

  /** What happens to a book: a condition is judged, or a pass forgets what is not present. */
  datatype Act = OnKey(key: Key, op: Op) | Apps(present: set<Pid>) | Processes(present: set<Pid>)

  function Acted(book: Book, act: Act): Book {
    match act
    case OnKey(key, op) => Store(book, key, Applied(Look(book, key), op))
    case Apps(present) => Kept(book, AppKeep(present))
    case Processes(present) => Kept(book, ProcessKeep(present))
  }

  function ActAll(book: Book, acts: seq<Act>): Book {
    if acts == [] then book else Acted(ActAll(book, acts[..|acts| - 1]), acts[|acts| - 1])
  }

  /** Whether a pass forgets a key. */
  predicate Drops(act: Act, key: Key) {
    match act
    case OnKey(_, _) => false
    case Apps(present) => IsAppKind(key.kind) && key.pid !in present
    case Processes(present) => !IsAppKind(key.kind) && key.pid !in present
  }

  /** What was done with one key since it was last forgotten. */
  function OpsOf(acts: seq<Act>, key: Key): seq<Op> {
    if acts == [] then []
    else
      var last := acts[|acts| - 1];
      if Drops(last, key) then []
      else OpsOf(acts[..|acts| - 1], key) + if last.OnKey? && last.key == key then [last.op] else []
  }

  lemma ActedElsewhere(book: Book, act: Act, key: Key)
    ensures Look(Acted(book, act), key)
         == if Drops(act, key) then BLANK
            else if act.OnKey? && act.key == key then Applied(Look(book, key), act.op)
            else Look(book, key)
  {
    match act {
      case OnKey(k, op) => StoreElsewhere(book, k, Applied(Look(book, k), op), key);
      case Apps(present) => PassesDoNotInterfere(book, present, key);
      case Processes(present) => PassesDoNotInterfere(book, present, key);
    }
  }

  /** The maps of many keys are one such machine per key, side by side, each started afresh
      whenever its pass forgets it. */
  lemma {:induction false} KeysIndependent(acts: seq<Act>, key: Key)
    ensures Look(ActAll(EMPTY, acts), key) == RunKey(OpsOf(acts, key)).entry
  {
    if acts != [] {
      var last := acts[|acts| - 1];
      var before := acts[..|acts| - 1];
      KeysIndependent(before, key);
      hide Applied, Look, Acted, Drops, RunKey;
      ActedElsewhere(ActAll(EMPTY, before), last, key);
      if Drops(last, key) {
        RunKeyNone();
      } else if last.OnKey? && last.key == key {
        RunKeyNext(OpsOf(before, key), last.op);
      } else {
        assert OpsOf(before, key) + [] == OpsOf(before, key);
      }
    }
  }

  lemma RunKeyNone()
    ensures RunKey([]).entry == BLANK
  {
  }

  lemma RunKeyNext(ops: seq<Op>, op: Op)
    ensures RunKey(ops + [op]).entry == Applied(RunKey(ops).entry, op)
  {
    assert (ops + [op])[..|ops|] == ops;
  }

  lemma {:induction false} ActAllSplit(book: Book, a: seq<Act>, b: seq<Act>)
    ensures ActAll(book, a + b) == ActAll(ActAll(book, a), b)
  {
    hide Acted;
    if b == [] {
      assert a + b == a;
    } else {
      var last := |b| - 1;
      ActAllSplit(book, a, b[..last]);
      assert (a + b)[..|a + b| - 1] == a + b[..last];
    }
  }
}
