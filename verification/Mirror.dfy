/** Log and index side by side: what retention does to their agreement, and the two branches of
    the quality window (backend/event_log.py). */
module Mirror {
  import opened Prelude
  import opened IsoTime
  import opened Events
  import opened Counters
  import opened History
  import Lex
  import Seqs
  import Idx = EventIndex
  import DayPartition
  import LogRetention

  // ---- day retention ----

  function DaysFrom(events: seq<Event>, cutoff: string): seq<Event> {
    if events == [] then []
    else DaysFrom(events[..|events| - 1], cutoff) +
         if Lex.Less(Day(events[|events| - 1]), cutoff) then [] else [events[|events| - 1]]
  }

  /** What the index keeps after deleting the rows of earlier days. */
  lemma {:induction false} IndexAfterDayPrune(events: seq<Event>, cutoff: string)
    ensures Idx.Alive(Idx.DayBefore(cutoff), Idx.RowsOf(events)) == Idx.RowsOf(DaysFrom(events, cutoff))
  {
    if events == [] {
    } else {
      var front, e := events[..|events| - 1], events[|events| - 1];
      IndexAfterDayPrune(front, cutoff);
      DayPrefix(e.at);
      assert Idx.RowsOf(events)[..|Idx.RowsOf(events)| - 1] == Idx.RowsOf(front);
      Seqs.Empty(DaysFrom(front, cutoff));
      Seqs.Empty(Idx.RowsOf(DaysFrom(front, cutoff)));
      if !Lex.Less(Day(e), cutoff) {
        assert (DaysFrom(front, cutoff) + [e])[..|DaysFrom(front, cutoff)|] == DaysFrom(front, cutoff);
      }
    }
  }

  lemma {:induction false} OfDayOfDaysFrom(events: seq<Event>, cutoff: string, day: string)
    ensures OfDay(DaysFrom(events, cutoff), day) == if Lex.Less(day, cutoff) then [] else OfDay(events, day)
  {
    if events == [] {
    } else {
      var front, e := events[..|events| - 1], events[|events| - 1];
      OfDayOfDaysFrom(front, cutoff, day);
      Seqs.Empty(DaysFrom(front, cutoff));
      if !Lex.Less(Day(e), cutoff) {
        OfDaySnoc(DaysFrom(front, cutoff), e, day);
      }
    }
  }

  /** What a query for one day returns. */
  function Queried(rows: seq<Idx.Row>, day: string): seq<Event> {
    Idx.Selected(ANY.(dayFrom := Some(day), dayTo := Some(day)), rows)
  }

  lemma {:induction false} QueriedIsOfDay(events: seq<Event>, day: string)
    ensures Queried(Idx.RowsOf(events), day) == OfDay(events, day)
  {
    Idx.SelectedIsMatching(ANY.(dayFrom := Some(day), dayTo := Some(day)), events);
    DayFilterIsOfDay(events, day);
  }

  lemma {:induction false} DayFilterIsOfDay(events: seq<Event>, day: string)
    ensures Matching(ANY.(dayFrom := Some(day), dayTo := Some(day)), events) == OfDay(events, day)
  {
    if events == [] {
    } else {
      var e := events[|events| - 1];
      DayFilterIsOfDay(events[..|events| - 1], day);
      DayPrefix(e.at);
      Lex.LessIsStrictOrder(Day(e), day, day);
    }
  }

  /** Day retention deletes rows of every earlier day but spares the open file, and a file that cannot be
      unlinked.  So a query for a day still agrees with its file exactly when that day is not such a day
      below the cutoff with events in it. */
  lemma DayRetentionAgreesIff(log: DayPartition.Log, indexed: seq<Event>, cutoff: string, stuck: set<string>, day: string)
    requires DayPartition.FileOf(log, day) == Queried(Idx.RowsOf(indexed), day)
    ensures DayPartition.FileOf(DayPartition.Next(log, DayPartition.Retain(cutoff, stuck)), day)
            == Queried(Idx.Alive(Idx.DayBefore(cutoff), Idx.RowsOf(indexed)), day)
            <==> !(Lex.Less(day, cutoff) && (log.currentDay == Some(day) || day in stuck)
                   && DayPartition.FileOf(log, day) != [])
  {
    QueriedIsOfDay(indexed, day);
    IndexAfterDayPrune(indexed, cutoff);
    QueriedIsOfDay(DaysFrom(indexed, cutoff), day);
    OfDayOfDaysFrom(indexed, cutoff, day);
  }

  /** An instance: the writer still stands on an old day when retention runs. */
  lemma OpenDayIsSpared(e: Event, cutoff: string)
    requires Lex.Less(Day(e), cutoff)
    ensures var log := DayPartition.After([DayPartition.Append(e, false, false)]);
            && DayPartition.FileOf(DayPartition.Next(log, DayPartition.Retain(cutoff, {})), Day(e)) == [e]
            && Queried(Idx.Alive(Idx.DayBefore(cutoff), Idx.RowsOf([e])), Day(e)) == []
  {
    DayPartition.OneAppend(e);
    assert [e][..0] == [];
    assert DaysFrom([e], cutoff) == [];
    IndexAfterDayPrune([e], cutoff);
  }

  // ---- retention by age ----

  function NotOlder(events: seq<Event>, cutoff: ValidTime): seq<Event> {
    if events == [] then []
    else (if Micros(cutoff) <= When(events[0]) then [events[0]] else []) + NotOlder(events[1..], cutoff)
  }

  function Rendered(render: Event -> string, events: seq<Event>): seq<string> {
    if events == [] then [] else [render(events[0])] + Rendered(render, events[1..])
  }

  /** On the single file, retention by age keeps the same events in the rewritten file and in the index. */
  lemma {:induction false} AgePruneKeepsMirror(stampOf: string -> Option<string>, render: Event -> string,
                                               events: seq<Event>, cutoff: ValidTime)
    requires forall e | e in events :: stampOf(render(e)) == Some(Iso(e.at))
    ensures LogRetention.Survivors(stampOf, Iso(cutoff), Rendered(render, events))
            == Rendered(render, NotOlder(events, cutoff))
    ensures Idx.Alive(Idx.OlderThan(Iso(cutoff)), Idx.RowsOf(events)) == Idx.RowsOf(NotOlder(events, cutoff))
  {
    AgePruneOfLog(stampOf, render, events, cutoff);
    AgePruneOfIndex(events, cutoff);
  }

  lemma {:induction false} AgePruneOfLog(stampOf: string -> Option<string>, render: Event -> string,
                                         events: seq<Event>, cutoff: ValidTime)
    requires forall e | e in events :: stampOf(render(e)) == Some(Iso(e.at))
    ensures LogRetention.Survivors(stampOf, Iso(cutoff), Rendered(render, events))
            == Rendered(render, NotOlder(events, cutoff))
  {
    if events == [] {
    } else {
      var e, rest := events[0], events[1..];
      AgePruneOfLog(stampOf, render, rest, cutoff);
      LogRetention.SurvivalIsByInstant(stampOf, render(e), e.at, cutoff);
      assert Rendered(render, events)[1..] == Rendered(render, rest);
      Seqs.Empty(NotOlder(rest, cutoff));
      Seqs.Empty(Rendered(render, NotOlder(rest, cutoff)));
      assert ([e] + NotOlder(rest, cutoff))[1..] == NotOlder(rest, cutoff);
    }
  }

  lemma AgePruneOfIndex(events: seq<Event>, cutoff: ValidTime)
    ensures Idx.Alive(Idx.OlderThan(Iso(cutoff)), Idx.RowsOf(events)) == Idx.RowsOf(NotOlder(events, cutoff))
  {
    forall e: Event ensures Idx.OlderThan(Iso(cutoff))(Idx.RowOf(e)) <==> When(e) < Micros(cutoff) {
      Idx.PrunesByInstant(e, cutoff);
    }
    AliveOfNotOlder(Idx.OlderThan(Iso(cutoff)), events, cutoff);
  }

  lemma {:induction false} AliveOfNotOlder(dead: Idx.Row -> bool, events: seq<Event>, cutoff: ValidTime)
    requires forall e: Event :: dead(Idx.RowOf(e)) <==> When(e) < Micros(cutoff)
    ensures Idx.Alive(dead, Idx.RowsOf(events)) == Idx.RowsOf(NotOlder(events, cutoff))
  {
    if events == [] {
    } else {
      var e, rest := events[0], events[1..];
      AliveOfNotOlder(dead, rest, cutoff);
      assert events == [e] + rest;
      AliveOneMore(dead, e, rest, Micros(cutoff) <= When(e), NotOlder(rest, cutoff));
    }
  }

  lemma AliveOneMore(dead: Idx.Row -> bool, e: Event, rest: seq<Event>, keep: bool, kept: seq<Event>)
    requires dead(Idx.RowOf(e)) <==> !keep
    requires Idx.Alive(dead, Idx.RowsOf(rest)) == Idx.RowsOf(kept)
    ensures Idx.Alive(dead, Idx.RowsOf([e] + rest)) == Idx.RowsOf((if keep then [e] else []) + kept)
  {
    AliveAppend(dead, [e], rest);
    AliveOne(dead, e);
    RowsAppend(if keep then [e] else [], kept);
  }

  lemma {:induction false} RowsAppend(a: seq<Event>, b: seq<Event>)
    ensures Idx.RowsOf(a + b) == Idx.RowsOf(a) + Idx.RowsOf(b)
  {
    if b == [] {
      Seqs.Empty(a);
      Seqs.Empty(Idx.RowsOf(a));
    } else {
      var front, e := b[..|b| - 1], b[|b| - 1];
      RowsAppend(a, front);
      DropLast(b);
      Seqs.Assoc(a, front, [e]);
      Idx.RowsOfSnoc(a + front, e);
      Seqs.Assoc(Idx.RowsOf(a), Idx.RowsOf(front), [Idx.RowOf(e)]);
    }
  }

  lemma AliveOne(dead: Idx.Row -> bool, e: Event)
    ensures Idx.Alive(dead, Idx.RowsOf([e])) == if dead(Idx.RowOf(e)) then [] else [Idx.RowOf(e)]
    ensures Idx.RowsOf([e]) == [Idx.RowOf(e)]
  {
    assert [e][..0] == [] && [Idx.RowOf(e)][..0] == [];
  }

  lemma {:induction false} AliveAppend(dead: Idx.Row -> bool, a: seq<Event>, b: seq<Event>)
    ensures Idx.Alive(dead, Idx.RowsOf(a + b)) == Idx.Alive(dead, Idx.RowsOf(a)) + Idx.Alive(dead, Idx.RowsOf(b))
  {
    RowsAppend(a, b);
    Idx.AliveAppend(dead, Idx.RowsOf(a), Idx.RowsOf(b));
  }

  // ---- retention by age with day files ----

  lemma {:induction false} NotOlderSnoc(events: seq<Event>, e: Event, cutoff: ValidTime)
    ensures NotOlder(events + [e], cutoff)
            == NotOlder(events, cutoff) + if Micros(cutoff) <= When(e) then [e] else []
  {
    if events == [] {
      assert [e][1..] == [];
      Seqs.Empty([e]);
    } else {
      var first := if Micros(cutoff) <= When(events[0]) then [events[0]] else [];
      var last := if Micros(cutoff) <= When(e) then [e] else [];
      NotOlderSnoc(events[1..], e, cutoff);
      assert (events + [e])[1..] == events[1..] + [e];
      Seqs.Assoc(first, NotOlder(events[1..], cutoff), last);
    }
  }

  lemma {:induction false} OfDayOfNotOlder(events: seq<Event>, cutoff: ValidTime, day: string)
    ensures OfDay(NotOlder(events, cutoff), day) == NotOlder(OfDay(events, day), cutoff)
  {
    if events == [] {
    } else {
      var front, e := events[..|events| - 1], events[|events| - 1];
      assert events == front + [e];
      OfDayOfNotOlder(front, cutoff, day);
      NotOlderSnoc(front, e, cutoff);
      NotOlderSnoc(OfDay(front, day), e, cutoff);
      OfDaySnoc(NotOlder(front, cutoff), e, day);
      Seqs.Empty(NotOlder(front, cutoff));
      Seqs.Empty(OfDay(front, day));
    }
  }

  lemma {:induction false} NotOlderIsAllIff(events: seq<Event>, cutoff: ValidTime)
    ensures |NotOlder(events, cutoff)| <= |events|
    ensures NotOlder(events, cutoff) == events <==> forall e | e in events :: Micros(cutoff) <= When(e)
    ensures NotOlder(events, cutoff) == [] <==> forall e | e in events :: When(e) < Micros(cutoff)
  {
    if events == [] {
    } else {
      var e, rest := events[0], events[1..];
      NotOlderIsAllIff(rest, cutoff);
      assert events == [e] + rest;
      if Micros(cutoff) <= When(e) {
        assert NotOlder(events, cutoff)[0] == e;
        assert NotOlder(events, cutoff)[1..] == NotOlder(rest, cutoff);
      } else {
        Seqs.Empty(NotOlder(rest, cutoff));
      }
    }
  }

  lemma EarlierDayIsOlder(e: Event, cutoff: ValidTime)
    requires Lex.Less(Day(e), DayText(cutoff))
    ensures When(e) < Micros(cutoff)
  {
    DayTextOrder(e.at, cutoff);
    DateOrderIsDayOrder(e.at, cutoff);
  }

  /** With day files, retention by age deletes rows by instant and files by date.  So a query for a day
      agrees with its file exactly when, below the cutoff's date, no file with events was spared, and,
      from that date on, no event of the day is older than the cutoff. */
  lemma AgeRetentionInDayModeIff(log: DayPartition.Log, indexed: seq<Event>, cutoff: ValidTime, stuck: set<string>, day: string)
    requires DayPartition.FileOf(log, day) == Queried(Idx.RowsOf(indexed), day)
    ensures DayPartition.FileOf(DayPartition.Next(log, DayPartition.Retain(DayText(cutoff), stuck)), day)
            == Queried(Idx.Alive(Idx.OlderThan(Iso(cutoff)), Idx.RowsOf(indexed)), day)
            <==> if Lex.Less(day, DayText(cutoff))
                 then !((log.currentDay == Some(day) || day in stuck) && DayPartition.FileOf(log, day) != [])
                 else forall e | e in DayPartition.FileOf(log, day) :: Micros(cutoff) <= When(e)
  {
    QueriedIsOfDay(indexed, day);
    AgedIndexDay(indexed, cutoff, day);
    DayPartition.FileAfterRetain(log, DayText(cutoff), stuck, day);
    NotOlderIsAllIff(OfDay(indexed, day), cutoff);
    if Lex.Less(day, DayText(cutoff)) {
      EarlierDayIsGone(indexed, cutoff, day);
    }
  }

  lemma AgedIndexDay(indexed: seq<Event>, cutoff: ValidTime, day: string)
    ensures Queried(Idx.Alive(Idx.OlderThan(Iso(cutoff)), Idx.RowsOf(indexed)), day)
            == NotOlder(OfDay(indexed, day), cutoff)
  {
    AgePruneOfIndex(indexed, cutoff);
    QueriedIsOfDay(NotOlder(indexed, cutoff), day);
    OfDayOfNotOlder(indexed, cutoff, day);
  }

  lemma EarlierDayIsGone(indexed: seq<Event>, cutoff: ValidTime, day: string)
    requires Lex.Less(day, DayText(cutoff))
    ensures NotOlder(OfDay(indexed, day), cutoff) == []
  {
    OfDayMembers(indexed, day);
    forall e | e in OfDay(indexed, day) ensures When(e) < Micros(cutoff) {
      EarlierDayIsOlder(e, cutoff);
    }
    NotOlderIsAllIff(OfDay(indexed, day), cutoff);
  }

  /** An instance: an event of the cutoff's own date but before its hour stays in the file and goes from
      the index. */
  lemma CutoffDayIsMixed(e: Event, cutoff: ValidTime)
    requires Day(e) == DayText(cutoff) && When(e) < Micros(cutoff)
    ensures var log := DayPartition.After([DayPartition.Append(e, false, false)]);
            && DayPartition.FileOf(DayPartition.Next(log, DayPartition.Retain(DayText(cutoff), {})), Day(e)) == [e]
            && Queried(Idx.Alive(Idx.OlderThan(Iso(cutoff)), Idx.RowsOf([e])), Day(e)) == []
  {
    DayPartition.OneAppend(e);
    assert [e][1..] == [];
    assert NotOlder([e], cutoff) == [];
    AgePruneOfIndex([e], cutoff);
  }

  // ---- the quality window ----

  datatype Tally = Tally(byType: map<string, nat>, byKind: map<string, nat>, sample: nat,
                         earliest: Option<ValidTime>, latest: Option<ValidTime>)

  function Tallied(t: Tally, e: Event): Tally {
    Tally(Bump(t.byType, TypeName(e.body), 1),
          if e.body.Quality? then Bump(t.byKind, e.body.errorType, 1) else t.byKind,
          t.sample + 1,
          if t.earliest.None? || When(e) < Micros(t.earliest.value) then Some(e.at) else t.earliest,
          if t.latest.None? || Micros(t.latest.value) < When(e) then Some(e.at) else t.latest)
  }

  function TallyOf(events: seq<Event>): Tally {
    if events == [] then Tally(map[], map[], 0, None, None)
    else Tallied(TallyOf(events[..|events| - 1]), events[|events| - 1])
  }

  /** The scan branch. */
  method ScanWindow(sources: seq<Source>, since: ValidTime) returns (t: Tally)
    requires forall i | 0 <= i < |sources| :: Faithful(sources[i])
    ensures t == TallyOf(Matching(ANY.(since := Some(since)), AllEvents(sources)))
  {
    var found := StreamHistory(sources, ANY.(since := Some(since)));
    t := Tally(map[], map[], 0, None, None);
    Seqs.Whole(found);
    for n := 0 to |found|
      invariant t == TallyOf(found[..n])
    {
      Seqs.TakeSnoc(found, n);
      t := Tallied(t, found[n]);
    }
  }

  function CountType(events: seq<Event>, k: string): nat {
    if events == [] then 0
    else CountType(events[..|events| - 1], k) + if TypeName(events[|events| - 1].body) == k then 1 else 0
  }

  function CountKind(events: seq<Event>, k: string): nat {
    if events == [] then 0
    else CountKind(events[..|events| - 1], k) +
         var b := events[|events| - 1].body;
         if b.Quality? && b.errorType == k then 1 else 0
  }

  /** GROUP BY with COUNT(*): one entry for each value that occurs. */
  ghost predicate GroupedByType(events: seq<Event>, m: map<string, nat>) {
    && (forall k :: k in m <==> 0 < CountType(events, k))
    && (forall k | k in m :: m[k] == CountType(events, k))
  }

  ghost predicate GroupedByKind(events: seq<Event>, m: map<string, nat>) {
    && (forall k :: k in m <==> 0 < CountKind(events, k))
    && (forall k | k in m :: m[k] == CountKind(events, k))
  }

  /** MIN(ts) or MAX(ts) over the selected rows, NULL when there are none. */
  ghost predicate IsMinTs(events: seq<Event>, ts: Option<string>) {
    && (ts.None? <==> events == [])
    && (ts.Some? ==> (exists e :: e in events && Iso(e.at) == ts.value)
                     && forall e | e in events :: !Lex.Less(Iso(e.at), ts.value))
  }

  ghost predicate IsMaxTs(events: seq<Event>, ts: Option<string>) {
    && (ts.None? <==> events == [])
    && (ts.Some? ==> (exists e :: e in events && Iso(e.at) == ts.value)
                     && forall e | e in events :: !Lex.Less(ts.value, Iso(e.at)))
  }

  lemma {:induction false} TallyCountsTypes(events: seq<Event>)
    ensures GroupedByType(events, TallyOf(events).byType)
    ensures TallyOf(events).sample == |events|
  {
    if events == [] {
    } else {
      TallyCountsTypes(events[..|events| - 1]);
    }
  }

  lemma {:induction false} TallyCountsKinds(events: seq<Event>)
    ensures GroupedByKind(events, TallyOf(events).byKind)
  {
    if events == [] {
    } else {
      TallyCountsKinds(events[..|events| - 1]);
    }
  }

  lemma TallyBounds(events: seq<Event>)
    ensures TallyOf(events).earliest.None? <==> events == []
    ensures TallyOf(events).latest.None? <==> events == []
    ensures events != [] ==>
              var t := TallyOf(events);
              && (exists e :: e in events && e.at == t.earliest.value)
              && (exists e :: e in events && e.at == t.latest.value)
              && forall e | e in events :: Micros(t.earliest.value) <= When(e) <= Micros(t.latest.value)
  {
    TallyEarliest(events);
    TallyLatest(events);
  }

  ghost predicate IsEarliest(events: seq<Event>, t: Option<ValidTime>) {
    && (t.None? <==> events == [])
    && (t.Some? ==> (exists e :: e in events && e.at == t.value) && forall e | e in events :: Micros(t.value) <= When(e))
  }

  ghost predicate IsLatest(events: seq<Event>, t: Option<ValidTime>) {
    && (t.None? <==> events == [])
    && (t.Some? ==> (exists e :: e in events && e.at == t.value) && forall e | e in events :: When(e) <= Micros(t.value))
  }

  lemma {:induction false} TallyEarliest(events: seq<Event>)
    ensures IsEarliest(events, TallyOf(events).earliest)
  {
    if events == [] {
    } else {
      var front := events[..|events| - 1];
      TallyEarliest(front);
      InSnoc(events);
      if front != [] {
        var low :| low in front && low.at == TallyOf(front).earliest.value;
        assert low in events;
      }
    }
  }

  lemma {:induction false} TallyLatest(events: seq<Event>)
    ensures IsLatest(events, TallyOf(events).latest)
  {
    if events == [] {
    } else {
      var front := events[..|events| - 1];
      TallyLatest(front);
      InSnoc(events);
      if front != [] {
        var high :| high in front && high.at == TallyOf(front).latest.value;
        assert high in events;
      }
    }
  }

  lemma InSnoc(events: seq<Event>)
    requires events != []
    ensures forall d :: d in events <==> d in events[..|events| - 1] || d == events[|events| - 1]
  {
    assert events == events[..|events| - 1] + [events[|events| - 1]];
  }

  lemma {:induction false} CountsArePermutationInvariant(a: seq<Event>, b: seq<Event>, k: string)
    requires multiset(a) == multiset(b)
    ensures CountType(a, k) == CountType(b, k) && CountKind(a, k) == CountKind(b, k)
  {
    if a == [] {
      assert |multiset(b)| == 0;
    } else {
      var x := a[|a| - 1];
      assert x in multiset(b);
      var i :| 0 <= i < |b| && b[i] == x;
      DropLast(a);
      RemoveAt(b, i, k);
      CountsArePermutationInvariant(a[..|a| - 1], b[..i] + b[i + 1..], k);
    }
  }

  lemma RemoveAt(b: seq<Event>, i: nat, k: string)
    requires i < |b|
    ensures multiset(b[..i] + b[i + 1..]) == multiset(b) - multiset{b[i]}
    ensures CountType(b, k) == CountType(b[..i] + b[i + 1..], k) + if TypeName(b[i].body) == k then 1 else 0
    ensures CountKind(b, k) == CountKind(b[..i] + b[i + 1..], k)
                               + if b[i].body.Quality? && b[i].body.errorType == k then 1 else 0
  {
    var head, e, tail := b[..i], b[i], b[i + 1..];
    Around(b, i);
    CountsAppend(head, [e] + tail, k);
    CountsAppend([e], tail, k);
    CountsAppend(head, tail, k);
    CountsOne(e, k);
  }

  lemma Around(b: seq<Event>, i: nat)
    requires i < |b|
    ensures b == b[..i] + ([b[i]] + b[i + 1..])
    ensures multiset(b[..i] + b[i + 1..]) == multiset(b) - multiset{b[i]}
  {
    var head, e, tail := b[..i], b[i], b[i + 1..];
    assert b == head + ([e] + tail);
    assert multiset(head + ([e] + tail)) == multiset(head) + multiset{e} + multiset(tail);
  }

  lemma CountsOne(e: Event, k: string)
    ensures CountType([e], k) == if TypeName(e.body) == k then 1 else 0
    ensures CountKind([e], k) == if e.body.Quality? && e.body.errorType == k then 1 else 0
  {
    assert [e][..0] == [];
  }

  lemma {:induction false} CountsAppend(a: seq<Event>, b: seq<Event>, k: string)
    ensures CountType(a + b, k) == CountType(a, k) + CountType(b, k)
    ensures CountKind(a + b, k) == CountKind(a, k) + CountKind(b, k)
  {
    if b == [] {
      Seqs.Empty(a);
    } else {
      var front, e := b[..|b| - 1], b[|b| - 1];
      CountsAppend(a, front, k);
      CountsGrow(a, front, e, k);
      DropLast(b);
    }
  }

  lemma CountsGrow(a: seq<Event>, b: seq<Event>, e: Event, k: string)
    requires CountType(a + b, k) == CountType(a, k) + CountType(b, k)
    requires CountKind(a + b, k) == CountKind(a, k) + CountKind(b, k)
    ensures CountType(a + (b + [e]), k) == CountType(a, k) + CountType(b + [e], k)
    ensures CountKind(a + (b + [e]), k) == CountKind(a, k) + CountKind(b + [e], k)
  {
    Seqs.Assoc(a, b, [e]);
    CountsSnoc(a + b, e, k);
    CountsSnoc(b, e, k);
  }

  lemma CountsSnoc(a: seq<Event>, e: Event, k: string)
    ensures CountType(a + [e], k) == CountType(a, k) + if TypeName(e.body) == k then 1 else 0
    ensures CountKind(a + [e], k) == CountKind(a, k) + if e.body.Quality? && e.body.errorType == k then 1 else 0
  {
    assert (a + [e])[..|a|] == a;
  }

  lemma {:induction false} SampleIsSum(events: seq<Event>)
    ensures Sum(TallyOf(events).byType) == |events|
  {
    if events == [] {
    } else {
      SampleIsSum(events[..|events| - 1]);
      SumBump(TallyOf(events[..|events| - 1]).byType, TypeName(events[|events| - 1].body), 1);
    }
  }

  lemma GroupsAgree(rows: seq<Event>, scan: seq<Event>, byType: map<string, nat>, byKind: map<string, nat>)
    requires multiset(rows) == multiset(scan)
    requires GroupedByType(rows, byType) && GroupedByKind(rows, byKind)
    ensures byType == TallyOf(scan).byType && byKind == TallyOf(scan).byKind
  {
    TallyCountsTypes(scan);
    TallyCountsKinds(scan);
    forall k ensures CountType(rows, k) == CountType(scan, k) && CountKind(rows, k) == CountKind(scan, k) {
      CountsArePermutationInvariant(rows, scan, k);
    }
    assert byType.Keys == TallyOf(scan).byType.Keys;
    assert byKind.Keys == TallyOf(scan).byKind.Keys;
  }

  /** Both branches of the quality window report the same counts, sample size and bounds, when the
      index holds the logged events in any order. */
  lemma WindowBranchesAgree(indexed: seq<Event>, logged: seq<Event>, since: ValidTime,
                            byType: map<string, nat>, byKind: map<string, nat>,
                            minTs: Option<string>, maxTs: Option<string>)
    requires multiset(indexed) == multiset(logged)
    requires var rows := Idx.Selected(ANY.(since := Some(since)), Idx.RowsOf(indexed));
             && GroupedByType(rows, byType) && GroupedByKind(rows, byKind)
             && IsMinTs(rows, minTs) && IsMaxTs(rows, maxTs)
    ensures var t := TallyOf(Matching(ANY.(since := Some(since)), logged));
            && byType == t.byType && byKind == t.byKind && Sum(byType) == t.sample
            && (minTs.None? <==> t.earliest.None?) && (minTs.Some? ==> minTs.value == Iso(t.earliest.value))
            && (maxTs.None? <==> t.latest.None?) && (maxTs.Some? ==> maxTs.value == Iso(t.latest.value))
  {
    var f := ANY.(since := Some(since));
    var rows, scan := Idx.Selected(f, Idx.RowsOf(indexed)), Matching(f, logged);
    Idx.SelectedIsMatching(f, indexed);
    Idx.MatchingOfPermutation(f, indexed, logged);
    GroupsAgree(rows, scan, byType, byKind);
    SampleIsSum(scan);
    TallyCountsTypes(scan);
    TallyBounds(scan);
    assert |rows| == |multiset(rows)| == |scan|;
    if scan != [] {
      SameElements(rows, scan);
      MinAgrees(scan, rows, minTs.value);
      MaxAgrees(scan, rows, maxTs.value);
    }
  }

  lemma SameElements(a: seq<Event>, b: seq<Event>)
    requires multiset(a) == multiset(b)
    ensures forall e :: e in a <==> e in b
  {
    assert forall e :: e in a <==> e in multiset(a);
    assert forall e :: e in b <==> e in multiset(b);
  }

  lemma MinAgrees(scan: seq<Event>, rows: seq<Event>, minTs: string)
    requires scan != [] && forall e :: e in rows <==> e in scan
    requires IsMinTs(rows, Some(minTs))
    ensures TallyOf(scan).earliest.Some? && minTs == Iso(TallyOf(scan).earliest.value)
  {
    TallyBounds(scan);
    var lo :| lo in rows && Iso(lo.at) == minTs;
    var first :| first in scan && first.at == TallyOf(scan).earliest.value;
    IsoOrderIsTimeOrder(first.at, lo.at);
    assert first in rows && lo in scan;
  }

  lemma MaxAgrees(scan: seq<Event>, rows: seq<Event>, maxTs: string)
    requires scan != [] && forall e :: e in rows <==> e in scan
    requires IsMaxTs(rows, Some(maxTs))
    ensures TallyOf(scan).latest.Some? && maxTs == Iso(TallyOf(scan).latest.value)
  {
    TallyBounds(scan);
    var hi :| hi in rows && Iso(hi.at) == maxTs;
    var last :| last in scan && last.at == TallyOf(scan).latest.value;
    IsoOrderIsTimeOrder(hi.at, last.at);
    assert last in rows && hi in scan;
  }
}
