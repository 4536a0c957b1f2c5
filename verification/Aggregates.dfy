/** The counts SQL makes on the index columns (backend/event_index.py), against the events themselves. */
module Aggregates {
  import opened Prelude
  import opened IsoTime
  import opened Events
  import opened History
  import opened EventIndex
  import Talk = TalkerGraph
  import Seqs

  /** COUNT(*) of the rows that a filter and a test on the columns select. */
  function CountWhere(f: Filter, rows: seq<Row>, p: Columns -> bool): nat {
    if rows == [] then 0
    else CountWhere(f, rows[..|rows| - 1], p) +
         var c := rows[|rows| - 1].cols;
         if Where(f, c) && p(c) then 1 else 0
  }

  function CountEvents(events: seq<Event>, q: Event -> bool): nat {
    if events == [] then 0 else CountEvents(events[..|events| - 1], q) + if q(events[|events| - 1]) then 1 else 0
  }

  /** A test on the columns that says of every event what `q` says counts the events that `q` counts. */
  lemma {:induction false} ColumnCountsAreEventCounts(f: Filter, events: seq<Event>, p: Columns -> bool, q: Event -> bool)
    requires forall e: Event :: p(ExtractColumns(e)) <==> q(e)
    ensures CountWhere(f, RowsOf(events), p) == CountEvents(Matching(f, events), q)
  {
    if events == [] {
    } else {
      var front, e := events[..|events| - 1], events[|events| - 1];
      ColumnCountsAreEventCounts(f, front, p, q);
      WhereIsKeeps(f, e);
      CountSnoc(Matching(f, front), e, q);
      Seqs.Empty(Matching(f, front));
      assert RowsOf(events)[..|RowsOf(events)| - 1] == RowsOf(front);
    }
  }

  lemma CountSnoc(events: seq<Event>, e: Event, q: Event -> bool)
    ensures CountEvents(events + [e], q) == CountEvents(events, q) + if q(e) then 1 else 0
  {
    assert (events + [e])[..|events|] == events;
  }

  // ---- the columns ----

  /** An event of this kind with this body field, as the column test sees it. */
  function IsError(kind: string): Event -> bool {
    (e: Event) => e.body.Quality? && e.body.errorType == kind
  }

  function ErrorColumn(kind: string): Columns -> bool {
    (c: Columns) => c.errorType == Some(kind)
  }

  /** Grouping by error_type counts the quality events of each kind. */
  lemma ErrorCounts(f: Filter, events: seq<Event>, kind: string)
    ensures CountWhere(f, RowsOf(events), ErrorColumn(kind)) == CountEvents(Matching(f, events), IsError(kind))
  {
    ColumnCountsAreEventCounts(f, events, ErrorColumn(kind), IsError(kind));
  }

  function IsEncryptionOn(slot: int, channel: Option<string>): Event -> bool {
    (e: Event) => e.body.Encryption? && e.body.slot == slot && e.channel == channel
  }

  function EncryptedColumn(slot: int, channel: Option<string>): Columns -> bool {
    (c: Columns) => c.encrypted && c.slot == Some(slot) && c.channel == channel
  }

  /** Counting encrypted rows by slot and channel counts the encryption events there. */
  lemma EncryptionCounts(f: Filter, events: seq<Event>, slot: int, channel: Option<string>)
    ensures CountWhere(f, RowsOf(events), EncryptedColumn(slot, channel))
            == CountEvents(Matching(f, events), IsEncryptionOn(slot, channel))
  {
    ColumnCountsAreEventCounts(f, events, EncryptedColumn(slot, channel), IsEncryptionOn(slot, channel));
  }

  // ---- pair_counts ----

  /** The rows that the talker graph reads, from the columns. */
  function PairRows(f: Filter, rows: seq<Row>): seq<Talk.Row> {
    if rows == [] then []
    else
      var c := rows[|rows| - 1].cols;
      PairRows(f, rows[..|rows| - 1]) +
      if Where(f, c) then [Talk.Row(Talk.Key(c.src, c.tgt, c.typeName, c.addressing), c.ts)] else []
  }

  /** Who an event is from, who it is for, and how it is addressed. */
  function PairOf(e: Event): Talk.Row {
    var b := e.body;
    var from := match b
      case VoiceCall(_, src, _, _) => Some(src)
      case PreambleCsbk(_, src, _) => Some(src)
      case DataHeader(_, _, src, _) => Some(src)
      case LrrpRequest(src, _) => Some(src)
      case LrrpPosition(reporter, _, _) => reporter
      case IpMapping(_, radioId, _) => Some(radioId)
      case _ => None;
    var to := if b.VoiceCall? || b.PreambleCsbk? || b.DataHeader? || b.LrrpRequest? then Some(b.tgt) else None;
    var addressing := if b.PreambleCsbk? || b.DataHeader? then Some(b.addressing) else None;
    Talk.Row(Talk.Key(from, to, TypeName(b), addressing), Iso(e.at))
  }

  function PairsOf(events: seq<Event>): seq<Talk.Row> {
    if events == [] then [] else PairsOf(events[..|events| - 1]) + [PairOf(events[|events| - 1])]
  }

  lemma PairColumns(e: Event)
    ensures var c := ExtractColumns(e);
            Talk.Row(Talk.Key(c.src, c.tgt, c.typeName, c.addressing), c.ts) == PairOf(e)
  {
  }

  /** The rows grouped by pair_counts are the pairs of the matching events, so its groups are theirs. */
  lemma {:induction false} PairRowsAreEvents(f: Filter, events: seq<Event>)
    ensures PairRows(f, RowsOf(events)) == PairsOf(Matching(f, events))
  {
    if events == [] {
    } else {
      var front, e := events[..|events| - 1], events[|events| - 1];
      PairRowsAreEvents(f, front);
      WhereIsKeeps(f, e);
      PairColumns(e);
      assert RowsOf(events)[..|RowsOf(events)| - 1] == RowsOf(front);
      var kept := Matching(f, front);
      assert (kept + [e])[..|kept|] == kept;
      Seqs.Empty(kept);
      Seqs.Empty(PairsOf(kept));
    }
  }
}
