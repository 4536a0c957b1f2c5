/** The linear scan over the log on disk (backend/event_log.py, stream_history), which every
    indexed query must agree with. */
module History {
  import opened Prelude
  import opened IsoTime
  import opened Events
  import Lex
  import Seqs

  /** A line is an event, or something the scan skips: blank, not JSON, or without a usable timestamp. */
  datatype Line = Junk | Ev(event: Event)

  /** One *.jsonl file; `day` is the date in its name, None for the single-file log and for the
      unknown-date file of the migration. */
  datatype Source = Source(day: Option<string>, lines: seq<Line>)

  datatype Filter = Filter(
    since: Option<ValidTime>,
    until: Option<ValidTime>,
    src: Option<int>,
    tgt: Option<int>,
    types: set<string>,          // empty means any type
    dayFrom: Option<string>,
    dayTo: Option<string>)

  const ANY := Filter(None, None, None, None, {}, None, None)

  function RowSrc(b: Body): Option<int> {
    if JsonSrc(b).None? then JsonRadioId(b) else JsonSrc(b)
  }

  /** The scan compares datetimes, and slices the day off the timestamp text. */
  predicate Keeps(f: Filter, e: Event) {
    && (f.since.Some? ==> Micros(f.since.value) <= When(e))
    && (f.until.Some? ==> When(e) <= Micros(f.until.value))
    && (f.dayFrom.Some? ==> !Lex.Less(IsoDay(e), f.dayFrom.value))
    && (f.dayTo.Some? ==> !Lex.Less(f.dayTo.value, IsoDay(e)))
    && (f.types != {} ==> TypeName(e.body) in f.types)
    && (f.src.Some? ==> RowSrc(e.body) == f.src)
    && (f.tgt.Some? ==> JsonTgt(e.body) == f.tgt)
  }

  function IsoDay(e: Event): string {
    DayPrefix(e.at);
    Iso(e.at)[..10]
  }

  function Matching(f: Filter, events: seq<Event>): seq<Event> {
    if events == [] then []
    else Matching(f, events[..|events| - 1]) +
         if Keeps(f, events[|events| - 1]) then [events[|events| - 1]] else []
  }

  function EventsIn(lines: seq<Line>): seq<Event> {
    if lines == [] then []
    else EventsIn(lines[..|lines| - 1]) +
         if lines[|lines| - 1].Ev? then [lines[|lines| - 1].event] else []
  }

  function AllEvents(sources: seq<Source>): seq<Event> {
    if sources == [] then []
    else AllEvents(sources[..|sources| - 1]) + EventsIn(sources[|sources| - 1].lines)
  }

  /** A day file holds only events of the day in its name (DayPartition.FilesHoldTheirDay). */
  predicate Faithful(s: Source) {
    s.day.Some? ==> forall e | e in EventsIn(s.lines) :: Day(e) == s.day.value
  }

  /** Skipping whole files by name never changes the result. */
  method StreamHistory(sources: seq<Source>, f: Filter) returns (out: seq<Event>)
    requires forall i | 0 <= i < |sources| :: Faithful(sources[i])
    ensures out == Matching(f, AllEvents(sources))
  {
    out := [];
    Seqs.Whole(sources);
    for n := 0 to |sources|
      invariant out == Matching(f, AllEvents(sources[..n]))
    {
      var source := sources[n];
      Seqs.TakeSnoc(sources, n);
      MatchingAppend(f, AllEvents(sources[..n]), EventsIn(source.lines));
      var skip := source.day.Some? &&
                  ((f.dayFrom.Some? && Lex.Less(source.day.value, f.dayFrom.value)) ||
                   (f.dayTo.Some? && Lex.Less(f.dayTo.value, source.day.value)));
      if skip {
        SkippedFileHasNone(f, source);
        Seqs.Empty(out);
      } else {
        var found := ScanFile(source.lines, f);
        out := out + found;
      }
    }
  }

  method ScanFile(lines: seq<Line>, f: Filter) returns (out: seq<Event>)
    ensures out == Matching(f, EventsIn(lines))
  {
    out := [];
    Seqs.Whole(lines);
    for n := 0 to |lines|
      invariant out == Matching(f, EventsIn(lines[..n]))
    {
      Seqs.TakeSnoc(lines, n);
      match lines[n]
      case Junk =>
        Seqs.Empty(EventsIn(lines[..n]));
      case Ev(e) =>
        MatchingSnoc(f, EventsIn(lines[..n]), e);
        if Keeps(f, e) {
          out := out + [e];
        } else {
          Seqs.Empty(out);
        }
    }
  }

  lemma MatchingSnoc(f: Filter, events: seq<Event>, e: Event)
    ensures Matching(f, events + [e]) == Matching(f, events) + if Keeps(f, e) then [e] else []
  {
    assert (events + [e])[..|events|] == events;
  }

  lemma {:induction false} MatchingAppend(f: Filter, a: seq<Event>, b: seq<Event>)
    ensures Matching(f, a + b) == Matching(f, a) + Matching(f, b)
  {
    if b == [] {
      Seqs.Empty(a);
      Seqs.Empty(Matching(f, a));
    } else {
      var front, e := b[..|b| - 1], b[|b| - 1];
      MatchingAppend(f, a, front);
      Seqs.Assoc(a, front, [e]);
      assert front + [e] == b;
      MatchingSnoc(f, a + front, e);
      Seqs.Assoc(Matching(f, a), Matching(f, front), if Keeps(f, e) then [e] else []);
    }
  }

  lemma SkippedFileHasNone(f: Filter, s: Source)
    requires Faithful(s) && s.day.Some?
    requires (f.dayFrom.Some? && Lex.Less(s.day.value, f.dayFrom.value))
             || (f.dayTo.Some? && Lex.Less(f.dayTo.value, s.day.value))
    ensures Matching(f, EventsIn(s.lines)) == []
  {
    NoneKept(f, EventsIn(s.lines), s.day.value);
  }

  lemma {:induction false} NoneKept(f: Filter, events: seq<Event>, day: string)
    requires forall e | e in events :: Day(e) == day
    requires (f.dayFrom.Some? && Lex.Less(day, f.dayFrom.value)) || (f.dayTo.Some? && Lex.Less(f.dayTo.value, day))
    ensures Matching(f, events) == []
  {
    if events == [] {
    } else {
      var e := events[|events| - 1];
      NoneKept(f, events[..|events| - 1], day);
      assert e in events;
      DayPrefix(e.at);
    }
  }

  /** The radio an event is from, or that a mapping names. */
  predicate IsFrom(b: Body, id: int) {
    JsonSrc(b) == Some(id) || JsonRadioId(b) == Some(id)
  }

  predicate Within(f: Filter, e: Event, from: ValidTime, to: ValidTime) {
    && (f.since.Some? ==> Micros(f.since.value) <= When(e)) && (f.until.Some? ==> When(e) <= Micros(f.until.value))
    && (f.dayFrom.Some? ==> !DateBefore(e.at, from)) && (f.dayTo.Some? ==> !DateBefore(to, e.at))
  }

  /** The scan keeps exactly the events of the window of instants and of calendar days, of the wanted types, from
      and to the wanted radios. */
  lemma {:induction false} ScanMeans(f: Filter, events: seq<Event>, e: Event, from: ValidTime, to: ValidTime)
    requires (f.dayFrom.Some? ==> f.dayFrom.value == DayText(from)) && (f.dayTo.Some? ==> f.dayTo.value == DayText(to))
    ensures multiset(Matching(f, events))[e] ==
            if && Within(f, e, from, to) && (f.types == {} || TypeName(e.body) in f.types)
               && (f.src.Some? ==> IsFrom(e.body, f.src.value)) && (f.tgt.Some? ==> JsonTgt(e.body) == f.tgt)
            then multiset(events)[e] else 0
  {
    if events == [] {
    } else {
      var front, last := events[..|events| - 1], events[|events| - 1];
      ScanMeans(f, front, e, from, to);
      KeepsMeans(f, e, from, to);
      assert events == front + [last];
      Seqs.CountSnoc(front, last, e);
      MatchingSnoc(f, front, last);
      Seqs.CountSnoc(Matching(f, front), last, e);
      Seqs.Empty(Matching(f, front));
    }
  }

  lemma KeepsMeans(f: Filter, e: Event, from: ValidTime, to: ValidTime)
    requires (f.dayFrom.Some? ==> f.dayFrom.value == DayText(from)) && (f.dayTo.Some? ==> f.dayTo.value == DayText(to))
    ensures Keeps(f, e) <==>
              && Within(f, e, from, to) && (f.types == {} || TypeName(e.body) in f.types)
              && (f.src.Some? ==> IsFrom(e.body, f.src.value)) && (f.tgt.Some? ==> JsonTgt(e.body) == f.tgt)
  {
    DayPrefix(e.at);
    DayTextOrder(e.at, from);
    DayTextOrder(to, e.at);
  }

  // ---- the directory against the order of writing ----

  /** The partition directory in file-name order: one file for each listed day. */
  function ByDays(events: seq<Event>, days: seq<string>): seq<Event> {
    if days == [] then [] else ByDays(events, days[..|days| - 1]) + OfDay(events, days[|days| - 1])
  }

  predicate Ascending(days: seq<string>) {
    forall i, j | 0 <= i < j < |days| :: Lex.Less(days[i], days[j])
  }

  predicate Distinct(days: seq<string>) {
    forall i, j | 0 <= i < j < |days| :: days[i] != days[j]
  }

  lemma LastIsNew(days: seq<string>, day: string)
    requires Distinct(days) && days != []
    ensures var front, d := days[..|days| - 1], days[|days| - 1];
            (day in days <==> day in front || day == d) && d !in front
  {
    assert days == days[..|days| - 1] + [days[|days| - 1]];
  }

  lemma Regroup(a': seq<Event>, a: seq<Event>, b: seq<Event>, one: seq<Event>, m: multiset<Event>)
    requires multiset(a') == multiset(a) + m
    ensures multiset(a' + (b + one)) == multiset(a + b) + m + multiset(one)
  {
  }

  lemma {:induction false} ByDaysSnoc(events: seq<Event>, e: Event, days: seq<string>)
    requires Distinct(days)
    ensures multiset(ByDays(events + [e], days))
            == multiset(ByDays(events, days)) + if Day(e) in days then multiset{e} else multiset{}
  {
    if days == [] {
    } else {
      var front, d := days[..|days| - 1], days[|days| - 1];
      ByDaysSnoc(events, e, front);
      OfDaySnoc(events, e, d);
      LastIsNew(days, Day(e));
      var one := if Day(e) == d then [e] else [];
      Regroup(ByDays(events + [e], front), ByDays(events, front), OfDay(events, d), one,
              if Day(e) in front then multiset{e} else multiset{});
    }
  }

  lemma {:induction false} NothingByDays(days: seq<string>)
    ensures ByDays([], days) == []
  {
    if days == [] {
    } else {
      NothingByDays(days[..|days| - 1]);
    }
  }

  /** Splitting by day and reading the files back loses and doubles nothing. */
  lemma {:induction false} ByDaysIsPermutation(events: seq<Event>, days: seq<string>)
    requires Distinct(days)
    requires forall e | e in events :: Day(e) in days
    ensures multiset(ByDays(events, days)) == multiset(events)
  {
    if events == [] {
      NothingByDays(days);
    } else {
      var front, e := events[..|events| - 1], events[|events| - 1];
      assert events == front + [e];
      ByDaysIsPermutation(front, days);
      ByDaysSnoc(front, e, days);
      assert Day(e) in days;
    }
  }

  predicate Increasing(events: seq<Event>) {
    forall i, j | 0 <= i < j < |events| :: When(events[i]) < When(events[j])
  }

  lemma {:induction false} OfDayMembers(events: seq<Event>, day: string)
    ensures forall e | e in OfDay(events, day) :: e in events && Day(e) == day
  {
    if events == [] {
    } else {
      OfDayMembers(events[..|events| - 1], day);
    }
  }

  lemma {:induction false} OfDayOfIncreasing(events: seq<Event>, day: string)
    requires Increasing(events)
    ensures Increasing(OfDay(events, day))
    ensures forall e | e in OfDay(events, day) :: e in events && Day(e) == day
  {
    OfDayMembers(events, day);
    if events == [] {
    } else {
      var front, e := events[..|events| - 1], events[|events| - 1];
      OfDayOfIncreasing(front, day);
      if Day(e) == day {
        IncreasingSnoc(OfDay(front, day), e);
      } else {
        Seqs.Empty(OfDay(front, day));
      }
    }
  }

  lemma DayOrderIsTimeOrder(a: Event, b: Event)
    requires Lex.Less(Day(a), Day(b))
    ensures When(a) < When(b)
  {
    DayTextOrder(a.at, b.at);
    DateOrderIsDayOrder(a.at, b.at);
  }

  lemma {:induction false} ByDaysOfIncreasing(events: seq<Event>, days: seq<string>)
    requires Increasing(events) && Ascending(days)
    ensures Increasing(ByDays(events, days))
    ensures forall e | e in ByDays(events, days) :: e in events && Day(e) in days
  {
    if days == [] {
    } else {
      var front, d := days[..|days| - 1], days[|days| - 1];
      var older, newest := ByDays(events, front), OfDay(events, d);
      ByDaysOfIncreasing(events, front);
      OfDayOfIncreasing(events, d);
      forall a, b | a in older && b in newest ensures When(a) < When(b) {
        var i :| 0 <= i < |front| && front[i] == Day(a);
        assert Lex.Less(days[i], days[|days| - 1]);
        DayOrderIsTimeOrder(a, b);
      }
      forall i, j | 0 <= i < j < |older + newest|
        ensures When((older + newest)[i]) < When((older + newest)[j])
      {
        if i < |older| <= j {
          assert older[i] in older && newest[j - |older|] in newest;
        }
      }
    }
  }

  /** The latest element of an increasing sequence is its last. */
  lemma LatestIsLast(a: seq<Event>, e: Event)
    requires Increasing(a) && e in a
    ensures When(e) <= When(a[|a| - 1])
    ensures e != a[|a| - 1] ==> When(e) < When(a[|a| - 1])
  {
    var i :| 0 <= i < |a| && a[i] == e;
  }

  lemma SameLast(a: seq<Event>, b: seq<Event>)
    requires Increasing(a) && Increasing(b) && multiset(a) == multiset(b) && a != []
    ensures |a| == |b| && a[|a| - 1] == b[|b| - 1]
  {
    assert |a| == |multiset(a)| == |multiset(b)| == |b|;
    var x, y := a[|a| - 1], b[|b| - 1];
    assert x in multiset(a) && y in multiset(b);
    LatestIsLast(b, x);
    LatestIsLast(a, y);
  }

  lemma DropLast(a: seq<Event>)
    requires a != []
    ensures a == a[..|a| - 1] + [a[|a| - 1]]
    ensures multiset(a[..|a| - 1]) == multiset(a) - multiset{a[|a| - 1]}
    ensures Increasing(a) ==> Increasing(a[..|a| - 1])
  {
    var front, e := a[..|a| - 1], a[|a| - 1];
    assert a == front + [e];
  }

  /** Two increasing sequences with the same elements are the same sequence. */
  lemma {:induction false} IncreasingIsUnique(a: seq<Event>, b: seq<Event>)
    requires Increasing(a) && Increasing(b) && multiset(a) == multiset(b)
    ensures a == b
  {
    if a == [] {
      assert |multiset(b)| == 0;
    } else {
      SameLast(a, b);
      DropLast(a);
      DropLast(b);
      var fa, fb, last := a[..|a| - 1], b[..|b| - 1], a[|a| - 1];
      assert multiset(fa) == multiset(fb);
      IncreasingIsUnique(fa, fb);
    }
  }

  /** While time moves forward the directory reads back as it was written. */
  lemma ByDaysIsIdentity(events: seq<Event>, days: seq<string>)
    requires Increasing(events) && Ascending(days)
    requires forall e | e in events :: Day(e) in days
    ensures ByDays(events, days) == events
  {
    forall i, j | 0 <= i < j < |days| ensures days[i] != days[j] {
      Lex.LessIsStrictOrder(days[i], days[j], days[i]);
    }
    ByDaysIsPermutation(events, days);
    ByDaysOfIncreasing(events, days);
    IncreasingIsUnique(ByDays(events, days), events);
  }

  lemma IncreasingSnoc(events: seq<Event>, e: Event)
    requires Increasing(events)
    requires forall d | d in events :: When(d) < When(e)
    ensures Increasing(events + [e])
  {
  }

  lemma {:induction false} MatchingOfIncreasing(f: Filter, events: seq<Event>)
    requires Increasing(events)
    ensures Increasing(Matching(f, events))
    ensures forall e | e in Matching(f, events) :: e in events
  {
    if events == [] {
    } else {
      var front, e := events[..|events| - 1], events[|events| - 1];
      MatchingOfIncreasing(f, front);
      assert forall d | d in front :: When(d) < When(e);
      IncreasingSnoc(Matching(f, front), e);
    }
  }
}
