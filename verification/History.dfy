/** The daily metrics history: one file per local date, and a retention sweep that runs when the
    date of an append differs from that of the last sweep. */
module History {
  import opened Bytes

  // Days from 1970-01-01; the calendar runs from -9999-01-01 to 9999-12-31.
  const MIN_DATE := -4_371_587
  const MAX_DATE := 2_932_896

  type Date = d: int | MIN_DATE <= d <= MAX_DATE witness 0

  const RETENTION_DAYS := 30

  type Files<R> = map<Date, seq<R>>

  datatype Store<R> = Store(files: Files<R>, lastCleanup: Option<Date>)

  /** Missing files read as empty. */
  function File<R>(files: Files<R>, date: Date): seq<R> {
    if date in files then files[date] else []
  }

  /** What a sweep leaves; a cutoff outside the calendar sweeps nothing. */
  function Swept<R>(files: Files<R>, today: Date, days: int): Files<R> {
    var cutoff := today - days;
    if MIN_DATE <= cutoff <= MAX_DATE then map d | d in files && d >= cutoff :: files[d] else files
  }

  function Written<R>(files: Files<R>, date: Date, records: seq<R>): Files<R> {
    files[date := File(files, date) + records]
  }

  function Cleaned<R>(st: Store<R>, date: Date): Store<R> {
    if st.lastCleanup == Some(date) then st else Store(Swept(st.files, date, RETENTION_DAYS), Some(date))
  }

  function Appended<R>(st: Store<R>, date: Date, records: seq<R>): Store<R> {
    Cleaned(st.(files := Written(st.files, date, records)), date)
  }

  /** The files dated `from` to `to`, oldest first. */
  function ReadFrom<R>(files: Files<R>, from: Date, to: Date): seq<R>
    decreases (to as int) - (from as int) + 1
  {
    if from > to then []
    else File(files, from) + if from == MAX_DATE then [] else ReadFrom(files, from + 1, to)
  }

  lemma ReadStep<R>(files: Files<R>, from: Date, to: Date)
    ensures from > to ==> ReadFrom(files, from, to) == []
    ensures from == MAX_DATE <= to ==> ReadFrom(files, from, to) == File(files, from)
    ensures from < MAX_DATE && from <= to ==>
              ReadFrom(files, from, to) == File(files, from) + ReadFrom(files, from + 1, to)
  {
    assert File(files, from) + [] == File(files, from);
  }

  class HistoryStore<R> {
    var files: Files<R>
    var lastCleanup: Option<Date>

    function Value(): Store<R>
      reads this
    {
      Store(files, lastCleanup)
    }

    constructor ()
      ensures Value() == Store(map[], None)
    {
      files, lastCleanup := map[], None;
    }

    method Append(date: Date, records: seq<R>)
      modifies this
      ensures Value() == Appended(old(Value()), date, records)
    {
      var file := File(files, date);
      var i := 0;
      while i < |records|
        invariant i <= |records| && file == File(old(files), date) + records[..i]
      {
        file := file + [records[i]];
        i := i + 1;
      }
      assert records[..i] == records;
      files := files[date := file];
      MaybeCleanup(date);
    }

    method MaybeCleanup(date: Date)
      modifies this
      ensures Value() == Cleaned(old(Value()), date)
    {
      if lastCleanup == Some(date) {
        return;
      }
      lastCleanup := Some(date);
      var removed := Cleanup(date, RETENTION_DAYS);
    }

    /** Deletes the files dated more than `days` before `today`. */
    method Cleanup(today: Date, days: int) returns (removed: set<Date>)
      modifies this
      ensures lastCleanup == old(lastCleanup)
      ensures files == Swept(old(files), today, days)
      ensures removed == old(files).Keys - files.Keys
    {
      removed := {};
      var cutoff := today - days;
      if cutoff < MIN_DATE || cutoff > MAX_DATE {
        return;
      }
      ghost var was := files;
      var entries := files.Keys;
      while entries != {}
        invariant entries <= was.Keys && lastCleanup == old(lastCleanup)
        invariant files == map d | d in was && (d in entries || d >= cutoff) :: was[d]
        invariant removed == was.Keys - files.Keys
        decreases entries
      {
        var date :| date in entries;
        entries := entries - {date};
        if date < cutoff {
          files := files - {date};
          removed := removed + {date};
        }
      }
    }

    method ReadRange(from: Date, to: Date) returns (records: seq<R>)
      ensures records == ReadFrom(files, from, to)
    {
      hide ReadFrom;
      records := [];
      var date: Date := from;
      while date <= to
        invariant records + ReadFrom(files, date, to) == ReadFrom(files, from, to)
        decreases (to as int) - (date as int)
      {
        ReadStep(files, date, to);
        ghost var was := records;
        if date in files {
          records := records + files[date];
        }
        assert records == was + File(files, date);
        if date == MAX_DATE {
          return;
        }
        date := date + 1;
      }
      ReadStep(files, date, to);
    }
  }

  // ---------------------------------------------------------------- a flat log with retention

  /** One append; `restarted` if the writer's memory of its last sweep was lost before it. */
  datatype Append<R> = Append(date: Date, records: seq<R>, restarted: bool)

  function RunOf<R>(appends: seq<Append<R>>): Store<R> {
    if appends == [] then Store(map[], None)
    else
      var a, st := appends[|appends| - 1], RunOf(appends[..|appends| - 1]);
      Appended(if a.restarted then st.(lastCleanup := None) else st, a.date, a.records)
  }

  /** Nothing expired is ever left behind by an append, swept or not. */
  predicate Fresh<R>(st: Store<R>) {
    st.lastCleanup.Some? ==> forall d :: d in st.files ==> d >= st.lastCleanup.value - 30
  }

  lemma {:induction false} AppendedSweeps<R>(st: Store<R>, date: Date, records: seq<R>)
    requires Fresh(st)
    ensures Fresh(Appended(st, date, records))
    ensures Appended(st, date, records).lastCleanup == Some(date)
    ensures forall d: Date :: File(Appended(st, date, records).files, d) ==
                if d < date - 30 then []
                else File(st.files, d) + if d == date then records else []
  {
    forall d: Date ensures File(Appended(st, date, records).files, d) ==
                if d < date - 30 then []
                else File(st.files, d) + if d == date then records else []
    {
      assert File(st.files, d) + [] == File(st.files, d);
    }
  }

  /** A second append of one date sweeps nothing: files that turned up in between stay. */
  lemma SweepsOncePerDate<R>(st: Store<R>, date: Date, records: seq<R>)
    requires st.lastCleanup == Some(date)
    ensures forall d: Date :: d in st.files ==> d in Appended(st, date, records).files
    ensures forall d: Date :: d != date ==> File(Appended(st, date, records).files, d) == File(st.files, d)
  {
  }

  datatype Entry<R> = Entry(date: Date, record: R)

  /** Whether no append, from its own on, is dated more than the retention after it. */
  predicate Outlives<R>(appends: seq<Append<R>>, i: nat)
    requires i < |appends|
  {
    forall j :: i <= j < |appends| ==> appends[i].date >= appends[j].date - 30
  }

  function Tagged<R>(a: Append<R>): (es: seq<Entry<R>>)
    ensures |es| == |a.records| && forall i :: 0 <= i < |es| ==> es[i] == Entry(a.date, a.records[i])
  {
    seq(|a.records|, i requires 0 <= i < |a.records| => Entry(a.date, a.records[i]))
  }

  /** Everything appended, in order. */
  function Log<R>(appends: seq<Append<R>>): seq<Entry<R>> {
    if appends == [] then [] else Log(appends[..|appends| - 1]) + Tagged(appends[|appends| - 1])
  }

  /** Of the first `k` appends, those that no append of the run outdates. */
  function Survivors<R>(appends: seq<Append<R>>, k: nat): seq<Entry<R>>
    requires k <= |appends|
  {
    if k == 0 then []
    else Survivors(appends, k - 1) + if Outlives(appends, k - 1) then Tagged(appends[k - 1]) else []
  }

  /** The records of the entries dated `lo` to `hi`, in order. */
  function Within<R>(entries: seq<Entry<R>>, lo: int, hi: int): seq<R> {
    if entries == [] then []
    else
      var last := entries[|entries| - 1];
      Within(entries[..|entries| - 1], lo, hi) + if lo <= last.date <= hi then [last.record] else []
  }

  lemma {:induction false} WithinAppend<R>(a: seq<Entry<R>>, b: seq<Entry<R>>, lo: int, hi: int)
    ensures Within(a + b, lo, hi) == Within(a, lo, hi) + Within(b, lo, hi)
  {
    if b == [] {
      assert a + b == a;
    } else {
      assert (a + b)[..|a + b| - 1] == a + b[..|b| - 1];
      WithinAppend(a, b[..|b| - 1], lo, hi);
    }
  }

  lemma {:induction false} WithinTagged<R>(entries: seq<Entry<R>>, date: Date, records: seq<R>, lo: int, hi: int)
    requires |entries| == |records| && forall i :: 0 <= i < |entries| ==> entries[i] == Entry(date, records[i])
    ensures Within(entries, lo, hi) == if lo <= date <= hi then records else []
  {
    if entries != [] {
      var last := |records| - 1;
      WithinTagged(entries[..last], date, records[..last], lo, hi);
      assert records == records[..last] + [records[last]];
    }
  }

  lemma SurvivorsStep<R>(appends: seq<Append<R>>, k: nat, lo: int, hi: int)
    requires 0 < k <= |appends|
    ensures var a := appends[k - 1];
            Within(Survivors(appends, k), lo, hi)
            == Within(Survivors(appends, k - 1), lo, hi)
               + if Outlives(appends, k - 1) && lo <= a.date <= hi then a.records else []
  {
    var a := appends[k - 1];
    var own := if Outlives(appends, k - 1) then Tagged(a) else [];
    hide Outlives;
    WithinTagged(Tagged(a), a.date, a.records, lo, hi);
    WithinAppend(Survivors(appends, k - 1), own, lo, hi);
    hide Tagged;
    assert own == [] ==> Within(own, lo, hi) == [];
  }

  /** One more append: what it outdates is gone. */
  lemma {:induction false} SurvivorsNext<R>(before: seq<Append<R>>, a: Append<R>, k: nat, d: Date)
    requires k <= |before|
    ensures Within(Survivors(before + [a], k), d, d)
         == if d < a.date - 30 then [] else Within(Survivors(before, k), d, d)
  {
    hide *;
    if k == 0 {
      NoSurvivors(before + [a], d);
      NoSurvivors(before, d);
    } else {
      SurvivorsNext(before, a, k - 1, d);
      SurvivorNext(before, a, k, d);
    }
  }

  lemma SurvivorNext<R>(before: seq<Append<R>>, a: Append<R>, k: nat, d: Date)
    requires 0 < k <= |before|
    requires Within(Survivors(before + [a], k - 1), d, d)
          == if d < a.date - 30 then [] else Within(Survivors(before, k - 1), d, d)
    ensures Within(Survivors(before + [a], k), d, d)
         == if d < a.date - 30 then [] else Within(Survivors(before, k), d, d)
  {
    hide *;
    var appends := before + [a];
    StaysStep(appends, k, d);
    StaysStep(before, k, d);
    StaysNext(before, a, k - 1, d);
    assert before[k - 1] == appends[k - 1];
    OneEntryMore(
      Within(Survivors(before, k - 1), d, d), Within(Survivors(appends, k - 1), d, d), d as int < a.date as int - 30,
      Stays(before, k - 1, d), Stays(appends, k - 1, d), before[k - 1].records);
  }

  lemma StaysStep<R>(appends: seq<Append<R>>, k: nat, d: int)
    requires 0 < k <= |appends|
    ensures Within(Survivors(appends, k), d, d)
         == Within(Survivors(appends, k - 1), d, d) + if Stays(appends, k - 1, d) then appends[k - 1].records else []
  {
    hide Survivors, Within, Outlives;
    SurvivorsStep(appends, k, d, d);
  }

  /** The `i`th append is of date `d` and nothing later outdates it. */
  predicate Stays<R>(appends: seq<Append<R>>, i: nat, d: int)
    requires i < |appends|
  {
    Outlives(appends, i) && d <= appends[i].date <= d
  }

  lemma StaysNext<R>(before: seq<Append<R>>, a: Append<R>, i: nat, d: int)
    requires i < |before|
    ensures Stays(before + [a], i, d) <==> Stays(before, i, d) && d >= a.date - 30
  {
    var appends := before + [a];
    assert appends[|before|] == a && appends[i] == before[i];
    if Outlives(appends, i) {
      forall j | i <= j < |before| ensures before[i].date >= before[j].date - 30 {
        assert appends[j] == before[j];
      }
    }
  }

  lemma OneEntryMore<R>(was: seq<R>, now: seq<R>, outdated: bool, stayed: bool, stays: bool, records: seq<R>)
    requires now == if outdated then [] else was
    requires stays <==> stayed && !outdated
    ensures now + (if stays then records else [])
         == if outdated then [] else was + if stayed then records else []
  {
  }

  lemma NoSurvivors<R>(appends: seq<Append<R>>, d: Date)
    ensures Within(Survivors(appends, 0), d, d) == []
  {
  }

  lemma RunNext<R>(before: seq<Append<R>>, a: Append<R>)
    ensures var st := RunOf(before);
            RunOf(before + [a])
            == Appended(if a.restarted then st.(lastCleanup := None) else st, a.date, a.records)
  {
    assert (before + [a])[..|before|] == before;
  }

  /** The last append outlives the run, and is the last of the survivors. */
  lemma SurvivorLast<R>(before: seq<Append<R>>, a: Append<R>, d: Date)
    ensures Within(Survivors(before + [a], |before| + 1), d, d)
         == Within(Survivors(before + [a], |before|), d, d) + if d == a.date then a.records else []
  {
    assert Outlives(before + [a], |before|);
    hide Outlives, Survivors, Within;
    SurvivorsStep(before + [a], |before| + 1, d, d);
  }

  lemma FilesNext<R>(before: seq<Append<R>>, a: Append<R>, d: Date)
    requires Fresh(RunOf(before)) && File(RunOf(before).files, d) == Within(Survivors(before, |before|), d, d)
    ensures Fresh(RunOf(before + [a]))
    ensures File(RunOf(before + [a]).files, d) == Within(Survivors(before + [a], |before| + 1), d, d)
  {
    var st := RunOf(before);
    var st' := if a.restarted then st.(lastCleanup := None) else st;
    assert Fresh(st');
    hide *;
    RunNext(before, a);
    AppendedSweeps(st', a.date, a.records);
    SurvivorsNext(before, a, |before|, d);
    SurvivorLast(before, a, d);
  }

  lemma NoFiles<R>(d: Date)
    ensures Fresh(RunOf<R>([])) && File(RunOf<R>([]).files, d) == Within(Survivors<R>([], 0), d, d)
  {
  }

  /** After any run of appends, in any order of dates and with any restarts, each file holds
      exactly the records appended to its date that no later append outdated. */
  lemma {:induction false} FilesAreSurvivors<R>(appends: seq<Append<R>>, d: Date)
    ensures Fresh(RunOf(appends))
    ensures File(RunOf(appends).files, d) == Within(Survivors(appends, |appends|), d, d)
  {
    hide *;
    if appends == [] {
      NoFiles<R>(d);
    } else {
      var before, a := appends[..|appends| - 1], appends[|appends| - 1];
      FilesAreSurvivors(before, d);
      FilesNext(before, a, d);
      assert before + [a] == appends;
    }
  }

  // ---------------------------------------------------------------- dates that do not run back

  predicate DatesInOrder<R>(appends: seq<Append<R>>) {
    forall i, j :: 0 <= i < j < |appends| ==> appends[i].date <= appends[j].date
  }

  predicate EntriesInOrder<R>(entries: seq<Entry<R>>) {
    forall i, j :: 0 <= i < j < |entries| ==> entries[i].date <= entries[j].date
  }

  lemma {:induction false} SurvivorsInOrder<R>(appends: seq<Append<R>>, k: nat)
    requires DatesInOrder(appends) && k <= |appends|
    ensures EntriesInOrder(Survivors(appends, k))
    ensures forall i :: 0 <= i < |Survivors(appends, k)| ==>
              k > 0 && Survivors(appends, k)[i].date <= appends[k - 1].date
  {
    if k > 0 {
      SurvivorsInOrder(appends, k - 1);
      assert k > 1 ==> appends[k - 2].date <= appends[k - 1].date;
    }
  }

  lemma {:induction false} NoneWithin<R>(entries: seq<Entry<R>>, lo: int, hi: int)
    requires forall i :: 0 <= i < |entries| ==> entries[i].date < lo || hi < lo
    ensures Within(entries, lo, hi) == []
  {
    if entries != [] { NoneWithin(entries[..|entries| - 1], lo, hi); }
  }

  lemma WithinLast<R>(entries: seq<Entry<R>>, lo: int, hi: int)
    ensures entries == [] ==> Within(entries, lo, hi) == []
    ensures entries != [] ==>
              Within(entries, lo, hi) == Within(entries[..|entries| - 1], lo, hi)
                + if lo <= entries[|entries| - 1].date <= hi then [entries[|entries| - 1].record] else []
  {
  }

  /** In date order, one day and then the rest is the whole range. */
  lemma {:induction false} DayByDay<R>(entries: seq<Entry<R>>, from: int, to: int)
    requires EntriesInOrder(entries) && from <= to
    ensures Within(entries, from, to) == Within(entries, from, from) + Within(entries, from + 1, to)
  {
    hide Within;
    WithinLast(entries, from, to);
    WithinLast(entries, from, from);
    WithinLast(entries, from + 1, to);
    if entries != [] {
      var before, date := entries[..|entries| - 1], entries[|entries| - 1].date;
      DayByDay(before, from, to);
      if date <= from {
        NoneWithin(before, from + 1, to);
      }
      assert Within(before, from, from) + [] == Within(before, from, from);
    }
  }

  lemma {:induction false} ReadIsWithin<R>(files: Files<R>, entries: seq<Entry<R>>, from: Date, to: Date)
    requires EntriesInOrder(entries)
    requires forall d: Date :: File(files, d) == Within(entries, d, d)
    ensures ReadFrom(files, from, to) == Within(entries, from, to)
    decreases (to as int) - (from as int) + 1
  {
    hide ReadFrom, Within, File, EntriesInOrder;
    ReadStep(files, from, to);
    if from > to {
      NoneWithin(entries, from, to);
    } else {
      DayByDay(entries, from, to);
      if from == MAX_DATE {
        NoneWithin(entries, from + 1, to);
      } else {
        ReadIsWithin(files, entries, from + 1, to);
      }
    }
  }

  lemma LogStep<R>(appends: seq<Append<R>>, k: nat, lo: int, hi: int)
    requires 0 < k <= |appends|
    ensures var a := appends[k - 1];
            Within(Log(appends[..k]), lo, hi)
            == Within(Log(appends[..k - 1]), lo, hi) + if lo <= a.date <= hi then a.records else []
  {
    var a := appends[k - 1];
    assert appends[..k][..k - 1] == appends[..k - 1] && appends[..k][k - 1] == a;
    WithinTagged(Tagged(a), a.date, a.records, lo, hi);
    hide Within;
    WithinAppend(Log(appends[..k - 1]), Tagged(a), lo, hi);
  }

  lemma {:induction false} SurvivorsAreRecent<R>(appends: seq<Append<R>>, k: nat, from: int, to: int)
    requires appends != [] && DatesInOrder(appends) && k <= |appends|
    ensures var oldest := appends[|appends| - 1].date - 30;
            Within(Survivors(appends, k), from, to)
            == Within(Log(appends[..k]), if from < oldest then oldest else from, to)
  {
    if k > 0 {
      hide Outlives, DatesInOrder, Within, Survivors, Log;
      SurvivorsAreRecent(appends, k - 1, from, to);
      var oldest := appends[|appends| - 1].date - 30;
      RecentOutlive(appends, k - 1);
      SurvivorsStep(appends, k, from, to);
      LogStep(appends, k, if from < oldest then oldest else from, to);
    } else {
      assert appends[..k] == [];
    }
  }

  lemma RecentOutlive<R>(appends: seq<Append<R>>, i: nat)
    requires DatesInOrder(appends) && i < |appends|
    ensures Outlives(appends, i) <==> appends[i].date >= appends[|appends| - 1].date - 30
  {
    assert forall j :: i <= j < |appends| ==> appends[j].date <= appends[|appends| - 1].date;
  }

  /** With dates that do not run back, reading a range gives, in append order, exactly what was
      ever appended for those dates, no older than thirty days before the last append. */
  lemma ReadRangeIsLog<R>(appends: seq<Append<R>>, from: Date, to: Date)
    requires DatesInOrder(appends) && appends != []
    ensures var oldest := appends[|appends| - 1].date - 30;
            ReadFrom(RunOf(appends).files, from, to)
            == Within(Log(appends), if from < oldest then oldest else from, to)
  {
    var entries := Survivors(appends, |appends|);
    forall d: Date ensures File(RunOf(appends).files, d) == Within(entries, d, d) {
      FilesAreSurvivors(appends, d);
    }
    SurvivorsInOrder(appends, |appends|);
    hide RunOf, Survivors, EntriesInOrder, DatesInOrder;
    ReadIsWithin(RunOf(appends).files, entries, from, to);
    SurvivorsAreRecent(appends, |appends|, from, to);
    assert appends[..|appends|] == appends;
  }

  // ---------------------------------------------------------------- the calendar

  /** The days from the start of 1970 to the start of a year: 365 for each, and one more for each
      leap year. */
  function YearStart(year: int): int {
    365 * (year - 1970) + LeapYears(year - 1) - LeapYears(1969)
  }

  /** How many leap years there are up to a year, counted from year 1, and negative before it. */
  function LeapYears(year: int): int {
    year / 4 - year / 100 + year / 400
  }

  /** Dates run from the start of the year -9999 to the end of 9999, and a sweep whose cutoff, thirty
      days before its date, lies before that removes nothing. */
  lemma CalendarEnds<R>(st: Store<R>, date: Date)
    ensures MIN_DATE == YearStart(-9999) && MAX_DATE == YearStart(10_000) - 1
    ensures date < YearStart(-9999) + 30 ==> Cleaned(st, date).files == st.files
  {
  }
}
