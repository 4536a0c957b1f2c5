/** The SQLite mirror of the event log (backend/event_index.py): columns, filtered queries,
    batched commits, rebuild and chunked deletion.  The table is a sequence of rows in rowid
    order, never SQL text; an ORDER BY leaves the order of equal timestamps open. */
module EventIndex {
  import opened Prelude
  import opened IsoTime
  import opened Events
  import opened History
  import Lex
  import Seqs

  datatype Columns = Columns(
    ts: string, day: Option<string>, typeName: string,
    src: Option<int>, tgt: Option<int>, slot: Option<int>,
    addressing: Option<string>, errorType: Option<string>,
    encrypted: bool, channel: Option<string>)

  /** The payload column holds the JSON object, taken up to its spelling. */
  datatype Row = Row(cols: Columns, payload: Event)

  function DayOf(ts: string): Option<string> {
    if 10 <= |ts| && ts[4] == '-' && ts[7] == '-' then Some(ts[..10]) else None
  }

  function ExtractColumns(e: Event): Columns {
    var src := JsonSrc(e.body);
    Columns(Iso(e.at), DayOf(Iso(e.at)), TypeName(e.body),
            if src.None? && TypeName(e.body) == "ip_mapping" then JsonRadioId(e.body) else src,
            JsonTgt(e.body), JsonSlot(e.body), JsonAddressing(e.body),
            if TypeName(e.body) == "quality" then JsonErrorType(e.body) else None,
            TypeName(e.body) == "encryption", e.channel)
  }

  function RowOf(e: Event): Row {
    Row(ExtractColumns(e), e)
  }

  function RowsOf(events: seq<Event>): seq<Row> {
    if events == [] then [] else RowsOf(events[..|events| - 1]) + [RowOf(events[|events| - 1])]
  }

  // ---- filters ----

  /** The WHERE clause.  A NULL column satisfies no comparison. */
  predicate Where(f: Filter, c: Columns) {
    && (f.since.Some? ==> !Lex.Less(c.ts, Iso(f.since.value)))
    && (f.until.Some? ==> !Lex.Less(Iso(f.until.value), c.ts))
    && (f.dayFrom.Some? ==> c.day.Some? && !Lex.Less(c.day.value, f.dayFrom.value))
    && (f.dayTo.Some? ==> c.day.Some? && !Lex.Less(f.dayTo.value, c.day.value))
    && (f.src.Some? ==> c.src == f.src)
    && (f.tgt.Some? ==> c.tgt == f.tgt)
    && (f.types != {} ==> c.typeName in f.types)
  }

  lemma DayColumn(e: Event)
    ensures ExtractColumns(e).day == Some(IsoDay(e)) && IsoDay(e) == Day(e)
    ensures ExtractColumns(e).src == RowSrc(e.body)
  {
    DayPrefix(e.at);
    assert IsoDay(e) == Iso(e.at)[..10];
    assert Iso(e.at)[4] == Iso(e.at)[..10][4] && Iso(e.at)[7] == Iso(e.at)[..10][7];
  }

  /** Text comparison on the columns selects exactly the events the scan selects by instant. */
  lemma WhereIsKeeps(f: Filter, e: Event)
    ensures Where(f, ExtractColumns(e)) <==> Keeps(f, e)
  {
    DayColumn(e);
    if f.since.Some? {
      IsoOrderIsTimeOrder(e.at, f.since.value);
    }
    if f.until.Some? {
      IsoOrderIsTimeOrder(f.until.value, e.at);
    }
  }

  function Selected(f: Filter, rows: seq<Row>): seq<Event> {
    if rows == [] then []
    else Selected(f, rows[..|rows| - 1]) +
         if Where(f, rows[|rows| - 1].cols) then [rows[|rows| - 1].payload] else []
  }

  lemma {:induction false} SelectedIsMatching(f: Filter, events: seq<Event>)
    ensures Selected(f, RowsOf(events)) == Matching(f, events)
    ensures |RowsOf(events)| == |events|
  {
    if events == [] {
    } else {
      var front, e := events[..|events| - 1], events[|events| - 1];
      SelectedIsMatching(f, front);
      WhereIsKeeps(f, e);
      assert RowsOf(events)[..|RowsOf(events)| - 1] == RowsOf(front);
    }
  }

  // ---- query ----

  predicate SortedByTs(events: seq<Event>) {
    forall i, j | 0 <= i < j < |events| :: Lex.AtMost(Iso(events[i].at), Iso(events[j].at))
  }

  function Slice(events: seq<Event>, offset: nat, limit: nat): seq<Event> {
    var start := if offset <= |events| then offset else |events|;
    var end := if start + limit <= |events| then start + limit else |events|;
    events[start..end]
  }

  lemma SliceOfAll(events: seq<Event>, limit: nat)
    ensures |events| <= limit ==> Slice(events, 0, limit) == events
  {
    if |events| <= limit {
      Seqs.Whole(events);
    }
  }

  function Turned(events: seq<Event>, descending: bool): seq<Event> {
    if descending then Reversed(events) else events
  }

  function Reversed(events: seq<Event>): seq<Event> {
    if events == [] then [] else [events[|events| - 1]] + Reversed(events[..|events| - 1])
  }

  lemma {:induction false} ReversedSameEvents(events: seq<Event>)
    ensures multiset(Reversed(events)) == multiset(events) && |Reversed(events)| == |events|
  {
    if events == [] {
    } else {
      ReversedSameEvents(events[..|events| - 1]);
      assert events == events[..|events| - 1] + [events[|events| - 1]];
    }
  }

  lemma {:induction false} ReversedOfCons(e: Event, events: seq<Event>)
    ensures Reversed([e] + events) == Reversed(events) + [e]
  {
    if events == [] {
      assert [e][..0] == [];
    } else {
      ReversedOfCons(e, events[..|events| - 1]);
      assert ([e] + events)[..|events|] == [e] + events[..|events| - 1];
    }
  }

  lemma {:induction false} ReversedTwice(events: seq<Event>)
    ensures Reversed(Reversed(events)) == events
  {
    if events == [] {
    } else {
      ReversedTwice(events[..|events| - 1]);
      ReversedOfCons(events[|events| - 1], Reversed(events[..|events| - 1]));
    }
  }

  /** `full` is an order in which the database may return the selected rows. */
  predicate Listing(rows: seq<Row>, f: Filter, descending: bool, full: seq<Event>) {
    multiset(full) == multiset(Selected(f, rows)) && SortedByTs(Turned(full, descending))
  }

  lemma {:induction false} CountMatching(f: Filter, events: seq<Event>, e: Event)
    ensures multiset(Matching(f, events))[e] == if Keeps(f, e) then multiset(events)[e] else 0
  {
    if events == [] {
    } else {
      DropLast(events);
      CountMatching(f, events[..|events| - 1], e);
    }
  }

  lemma MatchingOfPermutation(f: Filter, a: seq<Event>, b: seq<Event>)
    requires multiset(a) == multiset(b)
    ensures multiset(Matching(f, a)) == multiset(Matching(f, b))
  {
    forall e ensures multiset(Matching(f, a))[e] == multiset(Matching(f, b))[e] {
      CountMatching(f, a, e);
      CountMatching(f, b, e);
    }
  }

  lemma SortedDistinctIsIncreasing(full: seq<Event>, m: seq<Event>)
    requires SortedByTs(full) && Increasing(m) && multiset(full) == multiset(m)
    ensures Increasing(full)
  {
    forall i, j | 0 <= i < j < |full| ensures When(full[i]) < When(full[j]) {
      var a, b := full[i], full[j];
      IsoOrderIsTimeOrder(b.at, a.at);
      if When(a) == When(b) {
        assert a in multiset(m) && b in multiset(m);
        var k :| 0 <= k < |m| && m[k] == a;
        var l :| 0 <= l < |m| && m[l] == b;
        assert k == l;
        TwoOccurrences(full, i, j);
        OneOccurrence(m, k);
      }
    }
  }

  lemma TwoOccurrences(s: seq<Event>, i: nat, j: nat)
    requires i < j < |s| && s[i] == s[j]
    ensures multiset(s)[s[i]] >= 2
  {
    assert s == s[..j] + s[j..];
    assert s[i] in s[..j] && s[j] in s[j..];
  }

  lemma {:induction false} OneOccurrence(m: seq<Event>, k: nat)
    requires Increasing(m) && k < |m|
    ensures multiset(m)[m[k]] == 1
  {
    DropLast(m);
    if k == |m| - 1 {
      assert forall e | e in m[..k] :: When(e) < When(m[k]);
      assert m[k] !in multiset(m[..k]);
    } else {
      OneOccurrence(m[..|m| - 1], k);
    }
  }

  lemma ListingIsPermutation(indexed: seq<Event>, logged: seq<Event>, f: Filter, descending: bool, full: seq<Event>)
    requires multiset(indexed) == multiset(logged) && Listing(RowsOf(indexed), f, descending, full)
    ensures multiset(full) == multiset(Matching(f, logged)) && |full| == |Matching(f, logged)|
  {
    SelectedIsMatching(f, indexed);
    MatchingOfPermutation(f, indexed, logged);
    assert |full| == |multiset(full)| && |Matching(f, logged)| == |multiset(Matching(f, logged))|;
  }

  lemma ListingOfIncreasing(indexed: seq<Event>, logged: seq<Event>, f: Filter, descending: bool, full: seq<Event>)
    requires multiset(indexed) == multiset(logged) && Listing(RowsOf(indexed), f, descending, full) && Increasing(logged)
    ensures full == Turned(Matching(f, logged), descending)
  {
    var scan, rising := Matching(f, logged), Turned(full, descending);
    ListingIsPermutation(indexed, logged, f, descending, full);
    MatchingOfIncreasing(f, logged);
    ReversedSameEvents(full);
    SortedDistinctIsIncreasing(rising, scan);
    IncreasingIsUnique(rising, scan);
    ReversedTwice(full);
  }

  /** The index refines the scan.  For any history logged in any order of dates, any filter, either
      direction and any tie order of the database: a query with a large enough limit is a permutation
      of the scan; when timestamps strictly increase it is the scan itself, or the scan reversed, and
      limit and offset are a slice of it. */
  lemma QueryRefinesScan(indexed: seq<Event>, logged: seq<Event>, f: Filter, descending: bool, full: seq<Event>,
                         offset: nat, limit: nat)
    requires multiset(indexed) == multiset(logged)
    requires Listing(RowsOf(indexed), f, descending, full)
    ensures |Matching(f, logged)| <= limit ==> multiset(Slice(full, 0, limit)) == multiset(Matching(f, logged))
    ensures Increasing(logged) ==>
              Slice(full, offset, limit) == Slice(Turned(Matching(f, logged), descending), offset, limit)
  {
    ListingIsPermutation(indexed, logged, f, descending, full);
    SliceOfAll(full, limit);
    if Increasing(logged) {
      ListingOfIncreasing(indexed, logged, f, descending, full);
    }
  }

  lemma {:induction false} ReversedAt(events: seq<Event>, i: nat)
    requires i < |events|
    ensures |Reversed(events)| == |events| && Reversed(events)[i] == events[|events| - 1 - i]
  {
    ReversedSameEvents(events);
    if i == 0 {
    } else {
      ReversedAt(events[..|events| - 1], i - 1);
    }
  }

  lemma SliceAt(events: seq<Event>, offset: nat, limit: nat)
    ensures var page := Slice(events, offset, limit);
            && |page| == Min(limit, Max(0, |events| - offset))
            && forall i | 0 <= i < |page| :: page[i] == events[offset + i]
  {
  }

  /** The page holds, one for one, the scan's events from `offset` on, or from its back. */
  predicate IsPage(page: seq<Event>, scan: seq<Event>, descending: bool, offset: nat, limit: nat) {
    && |page| == Min(limit, Max(0, |scan| - offset))
    && forall i | 0 <= i < |page| ::
         page[i] == if descending then scan[|scan| - 1 - offset - i] else scan[offset + i]
  }

  predicate InTimeOrder(page: seq<Event>, descending: bool) {
    forall i, j | 0 <= i < j < |page| ::
      if descending then When(page[j]) <= When(page[i]) else When(page[i]) <= When(page[j])
  }

  /** A page of a query, element by element, while timestamps strictly increase. */
  lemma PageOfScan(indexed: seq<Event>, logged: seq<Event>, f: Filter, descending: bool, full: seq<Event>,
                   offset: nat, limit: nat)
    requires multiset(indexed) == multiset(logged) && Increasing(logged)
    requires Listing(RowsOf(indexed), f, descending, full)
    ensures IsPage(Slice(full, offset, limit), Matching(f, logged), descending, offset, limit)
  {
    ListingOfIncreasing(indexed, logged, f, descending, full);
    PageAt(Matching(f, logged), descending, offset, limit);
  }

  lemma PageAt(scan: seq<Event>, descending: bool, offset: nat, limit: nat)
    ensures IsPage(Slice(Turned(scan, descending), offset, limit), scan, descending, offset, limit)
  {
    ReversedSameEvents(scan);
    SliceAt(Turned(scan, descending), offset, limit);
    var page := Slice(Turned(scan, descending), offset, limit);
    if descending {
      forall i | 0 <= i < |page| ensures page[i] == scan[|scan| - 1 - offset - i] {
        ReversedAt(scan, offset + i);
      }
    }
  }

  /** Every page is in time order, for any history and tie order: oldest first, or newest first. */
  lemma PageIsOrdered(rows: seq<Row>, f: Filter, descending: bool, full: seq<Event>, offset: nat, limit: nat)
    requires Listing(rows, f, descending, full)
    ensures InTimeOrder(Slice(full, offset, limit), descending)
  {
    AllInOrder(full, descending);
    SliceOfOrdered(full, descending, offset, limit);
  }

  lemma SliceOfOrdered(full: seq<Event>, descending: bool, offset: nat, limit: nat)
    requires InTimeOrder(full, descending)
    ensures InTimeOrder(Slice(full, offset, limit), descending)
  {
    SliceAt(full, offset, limit);
  }

  lemma AllInOrder(full: seq<Event>, descending: bool)
    requires SortedByTs(Turned(full, descending))
    ensures InTimeOrder(full, descending)
  {
    AllRising(Turned(full, descending));
    if descending {
      RisingBackwards(full);
    }
  }

  lemma AllRising(events: seq<Event>)
    requires SortedByTs(events)
    ensures InTimeOrder(events, false)
  {
    forall i, j | 0 <= i < j < |events| ensures When(events[i]) <= When(events[j]) {
      InOrderAt(events, i, j);
    }
  }

  lemma RisingBackwards(full: seq<Event>)
    requires InTimeOrder(Reversed(full), false)
    ensures InTimeOrder(full, true)
  {
    var back, n := Reversed(full), |full|;
    forall k | 0 <= k < n ensures |back| == n && back[n - 1 - k] == full[k] {
      TurnedAt(full, k);
    }
    forall i, j | 0 <= i < j < n ensures When(full[j]) <= When(full[i]) {
      assert When(back[n - 1 - j]) <= When(back[n - 1 - i]);
    }
  }

  lemma InOrderAt(events: seq<Event>, i: nat, j: nat)
    requires SortedByTs(events) && i < j < |events|
    ensures When(events[i]) <= When(events[j])
  {
    assert Lex.AtMost(Iso(events[i].at), Iso(events[j].at));
    IsoOrderIsTimeOrder(events[j].at, events[i].at);
  }

  lemma TurnedAt(full: seq<Event>, k: nat)
    requires k < |full|
    ensures |Reversed(full)| == |full| && Reversed(full)[|full| - 1 - k] == full[k]
  {
    ReversedAt(full, |full| - 1 - k);
  }

  /** The same against the partition directory: live appends in writing order on one side, the
      day files in name order on the other. */
  lemma QueryRefinesDirectoryScan(written: seq<Event>, days: seq<string>, f: Filter, descending: bool, full: seq<Event>,
                                  offset: nat, limit: nat)
    requires Ascending(days) && forall e | e in written :: Day(e) in days
    requires Listing(RowsOf(written), f, descending, full)
    ensures var scan := Matching(f, ByDays(written, days));
            && (|scan| <= limit ==> multiset(Slice(full, 0, limit)) == multiset(scan))
            && (Increasing(written) ==> Slice(full, offset, limit) == Slice(Turned(scan, descending), offset, limit))
  {
    forall i, j | 0 <= i < j < |days| ensures days[i] != days[j] {
      Lex.LessIsStrictOrder(days[i], days[j], days[i]);
    }
    ByDaysIsPermutation(written, days);
    if Increasing(written) {
      ByDaysIsIdentity(written, days);
    }
    QueryRefinesScan(written, ByDays(written, days), f, descending, full, offset, limit);
  }

  // ---- the index object ----

  const BATCH_SIZE := 100

  function Alive(dead: Row -> bool, rows: seq<Row>): seq<Row> {
    if rows == [] then []
    else Alive(dead, rows[..|rows| - 1]) + if dead(rows[|rows| - 1]) then [] else [rows[|rows| - 1]]
  }

  lemma {:induction false} AliveIsShorter(dead: Row -> bool, rows: seq<Row>)
    ensures |Alive(dead, rows)| <= |rows|
    ensures |Alive(dead, rows)| == |rows| ==> Alive(dead, rows) == rows
  {
    if rows == [] {
    } else {
      var front, last := rows[..|rows| - 1], rows[|rows| - 1];
      AliveIsShorter(dead, front);
      LongerByLast(Alive(dead, front), front, rows, last);
    }
  }

  lemma LongerByLast(kept: seq<Row>, front: seq<Row>, rows: seq<Row>, last: Row)
    requires rows != [] && rows[..|rows| - 1] == front && rows[|rows| - 1] == last
    ensures kept == front ==> kept + [last] == rows
    ensures |kept + []| == |kept| && |kept + [last]| == |kept| + 1 && |rows| == |front| + 1
  {
  }

  lemma {:induction false} AliveAppend(dead: Row -> bool, a: seq<Row>, b: seq<Row>)
    ensures Alive(dead, a + b) == Alive(dead, a) + Alive(dead, b)
  {
    if b == [] {
      Seqs.Empty(a);
      Seqs.Empty(Alive(dead, a));
    } else {
      var front, r := b[..|b| - 1], b[|b| - 1];
      AliveAppend(dead, a, front);
      assert (a + b)[..|a + b| - 1] == a + front;
      Seqs.Assoc(Alive(dead, a), Alive(dead, front), if dead(r) then [] else [r]);
    }
  }

  /** What happens to the index between two chunks of a prune. */
  datatype Between = Between(arrive: seq<Event>, close: bool)

  function Arrived(between: seq<Between>): seq<Row> {
    if between == [] then [] else Arrived(between[..|between| - 1]) + RowsOf(between[|between| - 1].arrive)
  }

  lemma ArrivedSnoc(between: seq<Between>, n: nat)
    requires n < |between|
    ensures Arrived(between[..n + 1]) == Arrived(between[..n]) + RowsOf(between[n].arrive)
  {
    Seqs.TakeSnoc(between, n);
  }

  /** Of all the rows there were, `total` dead ones are gone and nothing else. */
  predicate Deleted(dead: Row -> bool, all: seq<Row>, rows: seq<Row>, total: nat) {
    Alive(dead, rows) == Alive(dead, all) && |rows| + total == |all|
  }

  predicate Closes(between: seq<Between>) {
    exists i :: 0 <= i < |between| && between[i].close
  }

  lemma ClosesSnoc(between: seq<Between>, n: nat)
    requires n < |between|
    ensures Closes(between[..n + 1]) <==> Closes(between[..n]) || between[n].close
  {
    assert between[..n + 1] == between[..n] + [between[n]];
    assert between[n].close ==> between[..n + 1][n].close;
    if Closes(between[..n]) {
      var i :| 0 <= i < n && between[..n][i].close;
      assert between[..n + 1][i].close;
    }
  }

  /** After the first `used` interleavings: what was deleted, and whether the index was closed. */
  ghost predicate Pruned(dead: Row -> bool, start: seq<Row>, wasClosed: bool, met: seq<Between>,
                         rows: seq<Row>, closed: bool, total: nat)
  {
    && Deleted(dead, start + Arrived(met), rows, total)
    && (closed <==> wasClosed || Closes(met))
    && (wasClosed ==> met == [] && rows == start && total == 0)
  }

  /** No dead row is left. */
  predicate Clean(dead: Row -> bool, rows: seq<Row>) {
    rows == Alive(dead, rows)
  }

  lemma CleanIsAlive(dead: Row -> bool, start: seq<Row>, met: seq<Between>, rows: seq<Row>, total: nat)
    requires Clean(dead, rows) && Deleted(dead, start + Arrived(met), rows, total)
    ensures rows == Alive(dead, start + Arrived(met))
  {
  }

  lemma NothingPruned(dead: Row -> bool, rows: seq<Row>, closed: bool)
    ensures Pruned(dead, rows, closed, [], rows, closed, 0)
  {
    Seqs.Empty(rows);
  }

  lemma PrunedChunk(dead: Row -> bool, start: seq<Row>, met: seq<Between>, before: seq<Row>, rows: seq<Row>,
                    total: nat, removed: nat)
    requires Pruned(dead, start, false, met, before, false, total) && Deleted(dead, before, rows, removed)
    ensures Pruned(dead, start, false, met, rows, false, total + removed)
  {
  }

  lemma PrunedThenMet(dead: Row -> bool, start: seq<Row>, between: seq<Between>, n: nat, rows: seq<Row>, total: nat)
    requires n < |between| && Pruned(dead, start, false, between[..n], rows, false, total)
    ensures Pruned(dead, start, false, between[..n + 1], rows + RowsOf(between[n].arrive), between[n].close, total)
  {
    var more := RowsOf(between[n].arrive);
    ArrivedSnoc(between, n);
    ClosesSnoc(between, n);
    Seqs.Assoc(start, Arrived(between[..n]), more);
    AliveAppend(dead, start + Arrived(between[..n]), more);
    AliveAppend(dead, rows, more);
  }

  function Total(sizes: seq<nat>): nat {
    if sizes == [] then 0 else Total(sizes[..|sizes| - 1]) + sizes[|sizes| - 1]
  }

  lemma TotalSnoc(sizes: seq<nat>, n: nat)
    ensures Total(sizes + [n]) == Total(sizes) + n
  {
    assert (sizes + [n])[..|sizes|] == sizes;
  }

  /** All chunks were full but for the last one, which ended the prune unless a close did. */
  predicate Chunks(sizes: seq<nat>, chunk: nat, ended: bool) {
    && (forall i | 0 <= i < |sizes| - 1 :: sizes[i] == chunk)
    && (sizes != [] && !ended ==> sizes[|sizes| - 1] == chunk)
    && (ended ==> sizes != [] && sizes[|sizes| - 1] < chunk)
  }

  /** How many chunks something could be interleaved after. */
  function Gaps(sizes: seq<nat>, ended: bool): nat {
    if ended && sizes != [] then |sizes| - 1 else |sizes|
  }

  /** Where a prune stands after chunks of the given sizes and the interleavings it met. */
  ghost predicate Round(dead: Row -> bool, chunk: nat, start: seq<Row>, wasClosed: bool, met: seq<Between>, sizes: seq<nat>,
                        ended: bool, rows: seq<Row>, closed: bool)
  {
    && Pruned(dead, start, wasClosed, met, rows, closed, Total(sizes)) && Chunks(sizes, chunk, ended)
    && (ended ==> !closed && Clean(dead, rows))
  }

  lemma FirstRound(dead: Row -> bool, chunk: nat, start: seq<Row>, closed: bool)
    ensures Round(dead, chunk, start, closed, [], [], false, start, closed)
  {
    NothingPruned(dead, start, closed);
  }

  lemma NextRound(dead: Row -> bool, chunk: nat, start: seq<Row>, met: seq<Between>, sizes: seq<nat>,
                  before: seq<Row>, rows: seq<Row>, removed: nat)
    requires removed <= chunk && Round(dead, chunk, start, false, met, sizes, false, before, false)
    requires Deleted(dead, before, rows, removed) && (removed < chunk ==> Clean(dead, rows))
    ensures Round(dead, chunk, start, false, met, sizes + [removed], removed < chunk, rows, false)
    ensures Total(sizes + [removed]) == Total(sizes) + removed
  {
    TotalSnoc(sizes, removed);
    PrunedChunk(dead, start, met, before, rows, Total(sizes), removed);
  }

  lemma RoundThenMet(dead: Row -> bool, chunk: nat, start: seq<Row>, between: seq<Between>, n: nat, sizes: seq<nat>, rows: seq<Row>)
    requires n < |between| && Round(dead, chunk, start, false, between[..n], sizes, false, rows, false)
    ensures Round(dead, chunk, start, false, between[..n + 1], sizes, false, rows + RowsOf(between[n].arrive), between[n].close)
  {
    PrunedThenMet(dead, start, between, n, rows, Total(sizes));
  }

  class EventIndex {
    var rows: seq<Row>
    var pending: nat       // inserted but not committed
    var closed: bool

    ghost predicate Valid()
      reads this
    {
      pending <= |rows| && pending < BATCH_SIZE
    }

    /** What another connection sees, and what a power loss leaves. */
    ghost function Committed(): seq<Row>
      requires Valid()
      reads this
    {
      rows[..|rows| - pending]
    }

    constructor ()
      ensures Valid() && rows == [] && !closed
    {
      rows, pending, closed := [], 0, false;
    }

    /** At most 99 rows are ever uncommitted. */
    method Append(e: Event, batchTimeOver: bool)
      requires Valid()
      modifies this
      ensures Valid() && closed == old(closed)
      ensures rows == if closed then old(rows) else old(rows) + [RowOf(e)]
      ensures old(Committed()) <= Committed()
      ensures |rows| - BATCH_SIZE < |Committed()|
    {
      if closed {
        return;
      }
      rows := rows + [RowOf(e)];
      pending := pending + 1;
      if pending >= BATCH_SIZE || batchTimeOver {
        Commit();
      }
    }

    method Commit()
      modifies this`pending
      ensures pending == 0
    {
      pending := 0;
    }

    /** One DELETE of at most `chunk` dead rows; which of them go is the database's choice. */
    method DeleteChunk(dead: Row -> bool, chunk: nat) returns (removed: nat)
      modifies this`rows
      ensures Alive(dead, rows) == Alive(dead, old(rows))
      ensures |rows| + removed == |old(rows)|
      ensures removed <= chunk
      ensures removed < chunk ==> rows == Alive(dead, rows)
    {
      var kept := [];
      removed := 0;
      Seqs.Whole(rows);
      AliveIsShorter(dead, kept);
      for n := 0 to |rows|
        invariant rows == old(rows)
        invariant Alive(dead, kept) == Alive(dead, rows[..n])
        invariant |kept| + removed == n && removed <= chunk
        invariant removed < chunk ==> kept == Alive(dead, kept)
      {
        Seqs.TakeSnoc(rows, n);
        if dead(rows[n]) && removed < chunk {
          removed := removed + 1;
          Seqs.Empty(Alive(dead, rows[..n]));
        } else {
          assert (kept + [rows[n]])[..|kept|] == kept;
          kept := kept + [rows[n]];
        }
      }
      rows := kept;
    }

    method Close()
      requires Valid()
      modifies this
      ensures Valid() && closed && rows == old(rows) && Committed() == rows
    {
      Commit();
      closed := true;
    }

    /** What other threads do to the index while the lock is free between two chunks. */
    method Interleave(b: Between)
      requires Valid() && !closed
      modifies this
      ensures Valid() && closed == b.close && rows == old(rows) + RowsOf(b.arrive)
    {
      Seqs.Whole(b.arrive);
      Seqs.Empty(rows);
      for n := 0 to |b.arrive|
        invariant Valid() && !closed && rows == old(rows) + RowsOf(b.arrive[..n])
      {
        Seqs.TakeSnoc(b.arrive, n);
        RowsOfSnoc(b.arrive[..n], b.arrive[n]);
        Seqs.Assoc(old(rows), RowsOf(b.arrive[..n]), [RowOf(b.arrive[n])]);
        Append(b.arrive[n], false);
      }
      if b.close {
        Close();
      }
    }

    /** The chunked loop, with appends and a possible close while the lock is free between chunks.  It
        removes exactly the dead rows, those that arrive meanwhile included, keeps the others in order,
        returns the number removed, and ends for every positive chunk size; a close only stops it, and on
        a closed index nothing happens.  `sizes` is what each chunk removed, `met` what came between. */
    method DeleteInChunks(dead: Row -> bool, chunk: nat, between: seq<Between>)
      returns (total: nat, ghost sizes: seq<nat>, ghost met: seq<Between>)
      requires 0 < chunk && Valid()
      modifies this
      ensures Valid() && total == Total(sizes) && Chunks(sizes, chunk, !closed)
      ensures met == between[..Min(|between|, Gaps(sizes, !closed))]
      ensures Pruned(dead, old(rows), old(closed), met, rows, closed, total)
      ensures !closed ==> rows == Alive(dead, old(rows) + Arrived(met))
    {
      total, sizes, met := 0, [], [];
      var more, turn := true, 0;
      FirstRound(dead, chunk, rows, closed);
      while more && !closed
        invariant Valid() && turn <= |between| && total == Total(sizes)
        invariant met == between[..turn] && turn == Min(|between|, Gaps(sizes, !more))
        invariant Round(dead, chunk, old(rows), old(closed), met, sizes, !more, rows, closed)
        decreases |between| - turn, |rows|, more
      {
        ghost var before := rows;
        var removed := DeleteNext(dead, chunk);
        NextRound(dead, chunk, old(rows), met, sizes, before, rows, removed);
        total, sizes := total + removed, sizes + [removed];
        if removed < chunk {
          more := false;
        } else if turn < |between| {
          RoundThenMet(dead, chunk, old(rows), between, turn, sizes, rows);
          Interleave(between[turn]);
          turn := turn + 1;
          met := between[..turn];
        }
      }
      if !closed {
        CleanIsAlive(dead, old(rows), met, rows, total);
      }
    }

    /** Under the lock: pending rows are committed first. */
    method DeleteNext(dead: Row -> bool, chunk: nat) returns (removed: nat)
      requires 0 < chunk && Valid()
      modifies this
      ensures Valid() && closed == old(closed) && removed <= chunk && |rows| + removed == |old(rows)|
      ensures Deleted(dead, old(rows), rows, removed)
      ensures removed < chunk ==> Clean(dead, rows)
    {
      Commit();
      removed := DeleteChunk(dead, chunk);
    }

    method PruneOlderThan(cutoff: ValidTime, chunk: nat, between: seq<Between>)
      returns (total: nat, ghost sizes: seq<nat>, ghost met: seq<Between>)
      requires 0 < chunk && Valid()
      modifies this
      ensures Valid() && total == Total(sizes) && Chunks(sizes, chunk, !closed)
      ensures met == between[..Min(|between|, Gaps(sizes, !closed))]
      ensures Pruned(OlderThan(Iso(cutoff)), old(rows), old(closed), met, rows, closed, total)
      ensures !closed ==> rows == Alive(OlderThan(Iso(cutoff)), old(rows) + Arrived(met))
    {
      total, sizes, met := DeleteInChunks(OlderThan(Iso(cutoff)), chunk, between);
    }

    method PruneDaysOlderThan(cutoffDay: string, chunk: nat, between: seq<Between>)
      returns (total: nat, ghost sizes: seq<nat>, ghost met: seq<Between>)
      requires 0 < chunk && Valid()
      modifies this
      ensures Valid() && total == Total(sizes) && Chunks(sizes, chunk, !closed)
      ensures met == between[..Min(|between|, Gaps(sizes, !closed))]
      ensures Pruned(DayBefore(cutoffDay), old(rows), old(closed), met, rows, closed, total)
      ensures !closed ==> rows == Alive(DayBefore(cutoffDay), old(rows) + Arrived(met))
    {
      total, sizes, met := DeleteInChunks(DayBefore(cutoffDay), chunk, between);
    }

    /** Wherever the batches end and however the log is split into files, the table holds one row
        for each event of the log, in the order of the files. */
    method RebuildFromJsonl(sources: seq<Source>, batchSize: nat) returns (count: nat)
      modifies this
      ensures rows == RowsOf(AllEvents(sources)) && count == |rows|
      ensures Valid() && Committed() == rows
    {
      rows, pending := [], 0;
      count := 0;
      Seqs.Whole(sources);
      for n := 0 to |sources|
        invariant rows == RowsOf(AllEvents(sources[..n])) && count == |rows| && pending == 0
      {
        Seqs.TakeSnoc(sources, n);
        count := RebuildFile(sources[n].lines, AllEvents(sources[..n]), batchSize, count);
      }
    }

    method RebuildFile(lines: seq<Line>, ghost before: seq<Event>, batchSize: nat, counted: nat)
      returns (count: nat)
      requires rows == RowsOf(before) && counted == |rows|
      modifies this`rows
      ensures rows == RowsOf(before + EventsIn(lines)) && count == |rows|
    {
      var batch: seq<Row> := [];
      count := counted;
      Seqs.Whole(lines);
      Seqs.Empty(before);
      Seqs.Empty(rows);
      for n := 0 to |lines|
        invariant rows + batch == RowsOf(before + EventsIn(lines[..n])) && count == |rows|
      {
        Seqs.TakeSnoc(lines, n);
        ghost var done := before + EventsIn(lines[..n]);
        if lines[n].Ev? {
          var e := lines[n].event;
          Seqs.Assoc(before, EventsIn(lines[..n]), [e]);
          RowsOfSnoc(done, e);
          Seqs.Assoc(rows, batch, [RebuildRow(e)]);
          batch := batch + [RebuildRow(e)];
          if |batch| >= batchSize {
            rows := rows + batch;
            count := count + |batch|;
            batch := [];
            Seqs.Empty(rows);
          }
        } else {
          Seqs.Empty(EventsIn(lines[..n]));
        }
      }
      rows := rows + batch;
      count := count + |batch|;
    }
  }

  function OlderThan(cutoff: string): Row -> bool {
    (r: Row) => Lex.Less(r.cols.ts, cutoff)
  }

  function DayBefore(cutoffDay: string): Row -> bool {
    (r: Row) => r.cols.day.Some? && Lex.Less(r.cols.day.value, cutoffDay)
  }

  /** rebuild_from_jsonl picks the columns itself instead of calling _extract_columns. */
  function RebuildRow(e: Event): Row {
    var typeName := TypeName(e.body);
    var src := if JsonSrc(e.body).None? && typeName == "ip_mapping" then JsonRadioId(e.body) else JsonSrc(e.body);
    Row(Columns(Iso(e.at), DayOf(Iso(e.at)), typeName, src, JsonTgt(e.body), JsonSlot(e.body),
                JsonAddressing(e.body), if typeName == "quality" then JsonErrorType(e.body) else None,
                typeName == "encryption", e.channel), e)
  }

  lemma RowsOfSnoc(events: seq<Event>, e: Event)
    ensures RowsOf(events + [e]) == RowsOf(events) + [RebuildRow(e)]
  {
    assert (events + [e])[..|events|] == events;
  }

  /** A row of the index occurs as often as its event. */
  predicate CountsMatch(events: seq<Event>, r: Row) {
    multiset(RowsOf(events))[r] == if r == RowOf(r.payload) then multiset(events)[r.payload] else 0
  }

  lemma CountsMatchSnoc(events: seq<Event>, e: Event, r: Row)
    requires CountsMatch(events, r)
    ensures CountsMatch(events + [e], r)
  {
    RowsOfSnoc(events, e);
    Seqs.CountSnoc(RowsOf(events), RowOf(e), r);
    Seqs.CountSnoc(events, e, r.payload);
    assert RowOf(e).payload == e;
  }

  lemma {:induction false} CountRows(events: seq<Event>, r: Row)
    ensures CountsMatch(events, r)
  {
    if events == [] {
    } else {
      var front, e := events[..|events| - 1], events[|events| - 1];
      assert events == front + [e];
      CountRows(front, r);
      CountsMatchSnoc(front, e, r);
    }
  }

  /** A rebuild from the day files gives the rows the live appends gave, and in the same order when
      time moved forward. */
  lemma RebuildMatchesLive(written: seq<Event>, days: seq<string>)
    requires Ascending(days) && forall e | e in written :: Day(e) in days
    ensures multiset(RowsOf(ByDays(written, days))) == multiset(RowsOf(written))
    ensures Increasing(written) ==> RowsOf(ByDays(written, days)) == RowsOf(written)
  {
    forall i, j | 0 <= i < j < |days| ensures days[i] != days[j] {
      Lex.LessIsStrictOrder(days[i], days[j], days[i]);
    }
    ByDaysIsPermutation(written, days);
    forall r ensures multiset(RowsOf(ByDays(written, days)))[r] == multiset(RowsOf(written))[r] {
      CountRows(ByDays(written, days), r);
      CountRows(written, r);
    }
    if Increasing(written) {
      ByDaysIsIdentity(written, days);
    }
  }

  /** Both prunes agree with the clock: by timestamp below an instant, by day below a date. */
  lemma PrunesByInstant(e: Event, cutoff: ValidTime)
    ensures OlderThan(Iso(cutoff))(RowOf(e)) <==> When(e) < Micros(cutoff)
    ensures DayBefore(DayText(cutoff))(RowOf(e)) <==> DateBefore(e.at, cutoff)
    ensures DayBefore(DayText(cutoff))(RowOf(e)) ==> OlderThan(Iso(cutoff))(RowOf(e))
  {
    IsoOrderIsTimeOrder(e.at, cutoff);
    DayPrefix(e.at);
    DayTextOrder(e.at, cutoff);
    if DateBefore(e.at, cutoff) {
      DateOrderIsDayOrder(e.at, cutoff);
    }
  }
}
