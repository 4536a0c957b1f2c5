/** The partition directory, from the appends that wrote it to the scan that reads it
    (backend/event_log.py). */
module Directory {
  import opened Prelude
  import opened Events
  import opened History
  import DayPartition
  import Idx = EventIndex
  import Lex
  import Seqs

  function AsLines(events: seq<Event>): seq<Line> {
    if events == [] then [] else AsLines(events[..|events| - 1]) + [Ev(events[|events| - 1])]
  }

  lemma {:induction false} LinesReadBack(events: seq<Event>)
    ensures EventsIn(AsLines(events)) == events
  {
    if events == [] {
    } else {
      LinesReadBack(events[..|events| - 1]);
      var lines := AsLines(events[..|events| - 1]);
      assert (lines + [Ev(events[|events| - 1])])[..|lines|] == lines;
    }
  }

  /** The day files of the log, for the days given. */
  function SourcesOf(log: DayPartition.Log, days: seq<string>): (r: seq<Source>)
    ensures |r| == |days|
  {
    if days == [] then []
    else
      var day := days[|days| - 1];
      SourcesOf(log, days[..|days| - 1]) + [Source(Some(day), AsLines(DayPartition.FileOf(log, day)))]
  }

  /** The days of the directory's files, in name order. */
  ghost predicate Listed(log: DayPartition.Log, days: seq<string>) {
    Ascending(days) && forall d :: d in days <==> d in log.files
  }

  lemma {:induction false} SourcesAreByDays(ops: seq<DayPartition.Op>, days: seq<string>)
    ensures var sources := SourcesOf(DayPartition.After(ops), days);
            && AllEvents(sources) == ByDays(DayPartition.Kept(ops), days)
            && forall i | 0 <= i < |sources| :: Faithful(sources[i])
  {
    if days == [] {
    } else {
      var log, front, day := DayPartition.After(ops), days[..|days| - 1], days[|days| - 1];
      SourcesAreByDays(ops, front);
      DayPartition.FilesAreKept(ops, day);
      DayPartition.FilesHoldTheirDay(ops, day);
      LinesReadBack(DayPartition.FileOf(log, day));
      var before := SourcesOf(log, front);
      assert (before + [Source(Some(day), AsLines(DayPartition.FileOf(log, day)))])[..|before|] == before;
    }
  }

  /** Every kept event is in a listed file. */
  lemma KeptAreListed(ops: seq<DayPartition.Op>, days: seq<string>)
    requires Listed(DayPartition.After(ops), days)
    ensures forall e | e in DayPartition.Kept(ops) :: Day(e) in days
  {
    forall e | e in DayPartition.Kept(ops) ensures Day(e) in days {
      DayPartition.FilesAreKept(ops, Day(e));
      IsOfItsDay(DayPartition.Kept(ops), e);
      assert e in DayPartition.FileOf(DayPartition.After(ops), Day(e));
    }
  }

  lemma {:induction false} IsOfItsDay(events: seq<Event>, e: Event)
    requires e in events
    ensures e in OfDay(events, Day(e))
  {
    var front, last := events[..|events| - 1], events[|events| - 1];
    if e == last {
    } else {
      assert events == front + [last];
      IsOfItsDay(front, e);
    }
  }

  /** For any appends with dates moving either way, failing opens and writes, and any retention: scanning
      the directory with a filter, whole files skipped by name, gives the matching kept events, day by day. */
  method ScanDirectory(log: DayPartition.Log, ghost ops: seq<DayPartition.Op>, days: seq<string>, f: Filter)
    returns (out: seq<Event>)
    requires log == DayPartition.After(ops) && Listed(log, days)
    ensures out == Matching(f, ByDays(DayPartition.Kept(ops), days))
    ensures multiset(out) == multiset(Matching(f, DayPartition.Kept(ops)))
    ensures Increasing(DayPartition.Kept(ops)) ==> out == Matching(f, DayPartition.Kept(ops))
  {
    SourcesAreByDays(ops, days);
    out := StreamHistory(SourcesOf(log, days), f);
    ScanIsOfKept(ops, days, f);
  }

  lemma ScanIsOfKept(ops: seq<DayPartition.Op>, days: seq<string>, f: Filter)
    requires Listed(DayPartition.After(ops), days)
    ensures multiset(Matching(f, ByDays(DayPartition.Kept(ops), days))) == multiset(Matching(f, DayPartition.Kept(ops)))
    ensures Increasing(DayPartition.Kept(ops)) ==> ByDays(DayPartition.Kept(ops), days) == DayPartition.Kept(ops)
  {
    KeptAreListed(ops, days);
    forall i, j | 0 <= i < j < |days| ensures days[i] != days[j] {
      Lex.LessIsStrictOrder(days[i], days[j], days[i]);
    }
    ByDaysIsPermutation(DayPartition.Kept(ops), days);
    Idx.MatchingOfPermutation(f, ByDays(DayPartition.Kept(ops), days), DayPartition.Kept(ops));
    if Increasing(DayPartition.Kept(ops)) {
      ByDaysIsIdentity(DayPartition.Kept(ops), days);
    }
  }

  /** Whole runs on both sides: while nothing was retained, any query on the rows of what the log wrote is
      a permutation of the directory scan, and the same in order while time moved forward. */
  lemma QueryAgreesWithDirectory(ops: seq<DayPartition.Op>, days: seq<string>, f: Filter, descending: bool,
                                 full: seq<Event>, offset: nat, limit: nat)
    requires Listed(DayPartition.After(ops), days)
    requires forall i | 0 <= i < |ops| :: ops[i].Append?
    requires Idx.Listing(Idx.RowsOf(DayPartition.Written(ops)), f, descending, full)
    ensures var scan := Matching(f, AllEvents(SourcesOf(DayPartition.After(ops), days)));
            && (|scan| <= limit ==> multiset(Idx.Slice(full, 0, limit)) == multiset(scan))
            && (Increasing(DayPartition.Written(ops)) ==>
                  Idx.Slice(full, offset, limit) == Idx.Slice(Idx.Turned(scan, descending), offset, limit))
  {
    SourcesAreByDays(ops, days);
    DayPartition.AllIsKept(ops);
    KeptAreListed(ops, days);
    Idx.QueryRefinesDirectoryScan(DayPartition.Written(ops), days, f, descending, full, offset, limit);
  }
}
