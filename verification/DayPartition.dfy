/** The day-partitioned event log: lazy rollover by each event's own date, failing opens and
    writes, and whole-file retention (backend/event_log.py). */
module DayPartition {
  import opened Prelude
  import opened Events
  import opened Counters
  import Lex
  import Seqs

  /** The partition directory and the writer. */
  datatype Log = Log(
    files: map<string, seq<Event>>,
    open: bool,                       // self._fh is not None
    currentDay: Option<string>)

  datatype Op =
    | Append(ev: Event, openFails: bool, writeFails: bool)
    | Retain(cutoff: string, stuck: set<string>)   // stuck: the days whose unlink fails

  const EMPTY := Log(map[], false, None)

  function FileOf(log: Log, day: string): seq<Event> {
    if day in log.files then log.files[day] else []
  }

  /** An event reaches its file unless its day file had to be opened and could not be, or the write failed. */
  predicate Writes(log: Log, op: Op) {
    && op.Append?
    && ((log.open && log.currentDay == Some(Day(op.ev))) || !op.openFails)
    && !op.writeFails
  }

  function Switched(log: Log, day: string, openFails: bool): Log {
    if log.open && log.currentDay == Some(day) then log
    else if openFails then log.(open := false)
    else Log(log.files[day := FileOf(log, day)], true, Some(day))
  }

  function Next(log: Log, op: Op): Log {
    match op
    case Append(ev, openFails, writeFails) =>
      var ready := Switched(log, Day(ev), openFails);
      if Writes(log, op) then ready.(files := ready.files[Day(ev) := FileOf(ready, Day(ev)) + [ev]]) else ready
    case Retain(cutoff, stuck) =>
      log.(files := map d | d in log.files && !Doomed(log, cutoff, stuck, d) :: log.files[d])
  }

  /** Retention unlinks the day's file: it is older, not open, and the unlink works. */
  predicate Doomed(log: Log, cutoff: string, stuck: set<string>, d: string) {
    Lex.Less(d, cutoff) && log.currentDay != Some(d) && d !in stuck
  }

  function After(ops: seq<Op>): Log {
    if ops == [] then EMPTY else Next(After(ops[..|ops| - 1]), ops[|ops| - 1])
  }

  /** The events the run wrote, in order. */
  function Written(ops: seq<Op>): seq<Event> {
    if ops == [] then []
    else Written(ops[..|ops| - 1]) +
         var op := ops[|ops| - 1];
         if Writes(After(ops[..|ops| - 1]), op) then [op.ev] else []
  }

  /** The writer, when open, is the writer of an existing file. */
  predicate Consistent(log: Log) {
    log.open ==> log.currentDay.Some? && log.currentDay.value in log.files
  }

  class EventLog {
    var files: map<string, seq<Event>>
    var open: bool
    var currentDay: Option<string>
    var buffer: seq<Event>
    var capacity: nat
    var writeErrors: nat

    ghost function State(): Log
      reads this
    {
      Log(files, open, currentDay)
    }

    constructor (capacity: nat)
      ensures State() == EMPTY && buffer == [] && writeErrors == 0 && this.capacity == capacity
    {
      files, open, currentDay := map[], false, None;
      buffer, this.capacity, writeErrors := [], capacity, 0;
    }

    /** A failed write is counted, and the event still reaches the ring buffer. */
    method Append(ev: Event, openFails: bool, writeFails: bool)
      requires Consistent(State())
      modifies this
      ensures State() == Next(old(State()), Op.Append(ev, openFails, writeFails)) && Consistent(State())
      ensures writeErrors == old(writeErrors)
                             + if Writes(old(State()), Op.Append(ev, openFails, writeFails)) then 0 else 1
      ensures buffer == Last(old(buffer) + [ev], capacity) && capacity == old(capacity)
    {
      buffer := Last(buffer + [ev], capacity);
      var day := Day(ev);
      EnsureDayWriter(day, openFails);
      if open {
        if writeFails {
          writeErrors := writeErrors + 1;
        } else {
          files := files[currentDay.value := files[currentDay.value] + [ev]];
        }
      }
    }

    /** The newest matching events of the ring, oldest first.  The walk goes backwards and stops at the
        first event before `since`; its cap is checked only after an event was taken. */
    method Recent(limit: nat, since: Option<nat>, types: set<string>) returns (out: seq<Event>)
      ensures out == Last(OfTypes(types, Newest(since, buffer)), if limit == 0 then 1 else limit)
    {
      var n := |buffer|;
      var found: seq<Event> := [];     // oldest first, as after the final reverse
      var cap := if limit == 0 then 1 else limit;
      Seqs.Whole(buffer);
      Seqs.Empty(Newest(since, buffer));
      while 0 < n && |found| < cap && !(since.Some? && When(buffer[n - 1]) < since.value)
        invariant 0 <= n <= |buffer| && |found| <= cap
        invariant WalkedTo(types, since, buffer, n, found)
        decreases n
      {
        WalkStep(types, since, buffer, n, found);
        n := n - 1;
        found := WithMatch(types, buffer[n], found);
      }
      WalkEnds(types, since, buffer, n, found, cap);
      return found;
    }

    /** A failed open leaves no writer at all, so the next event of any day tries again. */
    method EnsureDayWriter(day: string, openFails: bool)
      requires Consistent(State())
      modifies this`files, this`open, this`currentDay, this`writeErrors
      ensures State() == Switched(old(State()), day, openFails) && Consistent(State())
      ensures open ==> currentDay == Some(day) && writeErrors == old(writeErrors)
      ensures !open ==> writeErrors == old(writeErrors) + 1
    {
      if open && currentDay == Some(day) {
        return;
      }
      open := false;
      if openFails {
        writeErrors := writeErrors + 1;
        return;
      }
      files := files[day := if day in files then files[day] else []];
      open, currentDay := true, Some(day);
    }

    /** Whole day files older than the cutoff go; the open one never does, and one that cannot be
        unlinked stays.  `bytes` is the size of a file's content. */
    method UnlinkDayFilesBefore(cutoff: string, stuck: set<string>, bytes: seq<Event> -> nat)
      returns (deleted: nat, freed: nat)
      requires Consistent(State())
      modifies this`files
      ensures State() == Next(old(State()), Retain(cutoff, stuck)) && Consistent(State())
      ensures deleted == |old(files)| - |files|
      ensures freed == Sum(Sizes(bytes, old(files))) - Sum(Sizes(bytes, files))
    {
      deleted, freed := 0, 0;
      var names := files.Keys;
      while names != {}
        invariant Swept(old(State()), cutoff, stuck, names, files)
        invariant deleted + |files| == |old(files)|
        invariant freed + Sum(Sizes(bytes, files)) == Sum(Sizes(bytes, old(files)))
        decreases |names|
      {
        var d :| d in names;
        SweepOne(old(State()), cutoff, stuck, names, files, d);
        OneFileLess(bytes, files, d);
        names := names - {d};
        if Lex.Less(d, cutoff) && currentDay != Some(d) && d !in stuck {
          freed := freed + bytes(files[d]);
          files := files - {d};
          deleted := deleted + 1;
        }
      }
      SweepAll(old(State()), cutoff, stuck, files);
    }
  }

  function Sizes(bytes: seq<Event> -> nat, files: map<string, seq<Event>>): map<string, nat> {
    map d | d in files :: bytes(files[d])
  }

  lemma OneFileLess(bytes: seq<Event> -> nat, files: map<string, seq<Event>>, d: string)
    requires d in files
    ensures bytes(files[d]) + Sum(Sizes(bytes, files - {d})) == Sum(Sizes(bytes, files))
  {
    assert Sizes(bytes, files) - {d} == Sizes(bytes, files - {d});
    SumSplit(Sizes(bytes, files), d);
  }

  /** All days but `names` have been looked at; the files left are the original ones. */
  predicate Swept(log: Log, cutoff: string, stuck: set<string>, names: set<string>, files: map<string, seq<Event>>) {
    && names <= files.Keys <= log.files.Keys
    && (forall d | d in files :: files[d] == log.files[d])
    && (forall d | d in log.files && d !in names :: d in files <==> !Doomed(log, cutoff, stuck, d))
  }

  lemma SweepOne(log: Log, cutoff: string, stuck: set<string>, names: set<string>, files: map<string, seq<Event>>, d: string)
    requires Swept(log, cutoff, stuck, names, files) && d in names
    ensures Swept(log, cutoff, stuck, names - {d}, if Doomed(log, cutoff, stuck, d) then files - {d} else files)
    ensures |files - {d}| + 1 == |files|
  {
    assert (files - {d}).Keys == files.Keys - {d};
  }

  lemma SweepAll(log: Log, cutoff: string, stuck: set<string>, files: map<string, seq<Event>>)
    requires Swept(log, cutoff, stuck, {}, files)
    ensures Next(log, Retain(cutoff, stuck)) == log.(files := files)
  {
  }

  /** deque(maxlen=n). */
  function Last(s: seq<Event>, n: nat): seq<Event> {
    if |s| <= n then s else s[|s| - n..]
  }

  /** The longest end of a buffer that holds nothing older than `since`. */
  function Newest(since: Option<nat>, events: seq<Event>): seq<Event> {
    if events == [] || (since.Some? && When(events[|events| - 1]) < since.value) then []
    else Newest(since, events[..|events| - 1]) + [events[|events| - 1]]
  }

  function OfTypes(types: set<string>, events: seq<Event>): seq<Event> {
    if events == [] then []
    else OfTypes(types, events[..|events| - 1]) +
         if types == {} || TypeName(events[|events| - 1].body) in types then [events[|events| - 1]] else []
  }

  lemma OfTypesSnoc(types: set<string>, events: seq<Event>, e: Event)
    ensures OfTypes(types, events + [e])
            == OfTypes(types, events) + if types == {} || TypeName(e.body) in types then [e] else []
  {
    assert (events + [e])[..|events|] == events;
  }

  lemma {:induction false} OfTypesAppend(types: set<string>, a: seq<Event>, b: seq<Event>)
    ensures OfTypes(types, a + b) == OfTypes(types, a) + OfTypes(types, b)
  {
    if b == [] {
      Seqs.Empty(a);
      Seqs.Empty(OfTypes(types, a));
    } else {
      var front, last := b[..|b| - 1], b[|b| - 1];
      OfTypesAppend(types, a, front);
      assert b == front + [last];
      Seqs.Assoc(a, front, [last]);
      OfTypesSnoc(types, a + front, last);
      Seqs.Assoc(OfTypes(types, a), OfTypes(types, front),
                 if types == {} || TypeName(last.body) in types then [last] else []);
    }
  }

  function WithMatch(types: set<string>, e: Event, found: seq<Event>): seq<Event> {
    if types == {} || TypeName(e.body) in types then [e] + found else found
  }

  /** The backward walk has come down to position n. */
  predicate WalkedTo(types: set<string>, since: Option<nat>, buffer: seq<Event>, n: nat, found: seq<Event>)
    requires n <= |buffer|
  {
    && found == OfTypes(types, buffer[n..])
    && Newest(since, buffer) == Newest(since, buffer[..n]) + buffer[n..]
  }

  lemma WalkStep(types: set<string>, since: Option<nat>, buffer: seq<Event>, n: nat, found: seq<Event>)
    requires 0 < n <= |buffer| && WalkedTo(types, since, buffer, n, found)
    requires !(since.Some? && When(buffer[n - 1]) < since.value)
    ensures var e := buffer[n - 1];
            WalkedTo(types, since, buffer, n - 1, WithMatch(types, e, found))
  {
    var e, before, behind := buffer[n - 1], buffer[..n - 1], buffer[n..];
    assert buffer[..n] == before + [e] && buffer[..n][..n - 1] == before;
    assert [e] + behind == buffer[n - 1..];
    Seqs.Assoc(Newest(since, before), [e], behind);
    OfTypesCons(types, e, behind);
    Seqs.Empty(found);
  }

  lemma WalkEnds(types: set<string>, since: Option<nat>, buffer: seq<Event>, n: nat, found: seq<Event>, cap: nat)
    requires n <= |buffer| && |found| <= cap && WalkedTo(types, since, buffer, n, found)
    requires n == 0 || |found| == cap || (since.Some? && When(buffer[n - 1]) < since.value)
    ensures found == Last(OfTypes(types, Newest(since, buffer)), cap)
  {
    var rest := Newest(since, buffer[..n]);
    OfTypesAppend(types, rest, buffer[n..]);
    assert |found| != cap ==> rest == [];
    LastOfLonger(OfTypes(types, rest), found, cap);
  }

  lemma LastOfLonger(front: seq<Event>, back: seq<Event>, cap: nat)
    requires |back| == cap || (|back| <= cap && front == [])
    ensures Last(front + back, cap) == back
  {
  }

  lemma OfTypesCons(types: set<string>, e: Event, b: seq<Event>)
    ensures OfTypes(types, [e] + b) == (if types == {} || TypeName(e.body) in types then [e] else []) + OfTypes(types, b)
  {
    OfTypesAppend(types, [e], b);
    assert [e][..0] == [];
  }

  /** Stopping early is sound exactly where it matters: the walk sees every event at or after `since`
      if and only if no older event was appended after one of them. */
  lemma EarlyStopIsCompleteIff(since: nat, events: seq<Event>)
    ensures |Newest(Some(since), events)| == CountFrom(since, events)
            <==> forall i, j | 0 <= i < j < |events| && since <= When(events[i]) :: since <= When(events[j])
  {
    if |Newest(Some(since), events)| == CountFrom(since, events) {
      SuffixCountsAll(since, events);
    } else {
      SuffixTooShort(since, events);
    }
  }

  function CountFrom(since: nat, events: seq<Event>): nat {
    if events == [] then 0
    else CountFrom(since, events[..|events| - 1]) + if since <= When(events[|events| - 1]) then 1 else 0
  }

  lemma {:induction false} SuffixIsAllFrom(since: nat, events: seq<Event>)
    ensures |Newest(Some(since), events)| <= CountFrom(since, events) <= |events|
    ensures CountFrom(since, events) == 0 <==> forall i | 0 <= i < |events| :: When(events[i]) < since
  {
    if events == [] {
    } else {
      SuffixIsAllFrom(since, events[..|events| - 1]);
    }
  }

  lemma {:induction false} SuffixCountsAll(since: nat, events: seq<Event>)
    requires |Newest(Some(since), events)| == CountFrom(since, events)
    ensures forall i, j | 0 <= i < j < |events| && since <= When(events[i]) :: since <= When(events[j])
  {
    if events == [] {
    } else {
      var front, last := events[..|events| - 1], events[|events| - 1];
      if When(last) < since {
        SuffixIsAllFrom(since, events);
      } else {
        SuffixCountsAll(since, front);
      }
    }
  }

  lemma {:induction false} SuffixTooShort(since: nat, events: seq<Event>)
    requires |Newest(Some(since), events)| != CountFrom(since, events)
    ensures exists i, j :: 0 <= i < j < |events| && since <= When(events[i]) && When(events[j]) < since
  {
    var front, last := events[..|events| - 1], events[|events| - 1];
    if When(last) < since {
      SuffixIsAllFrom(since, front);
      var i :| 0 <= i < |front| && since <= When(front[i]);
      assert events[i] == front[i];
    } else {
      SuffixTooShort(since, front);
      var i, j :| 0 <= i < j < |front| && since <= When(front[i]) && When(front[j]) < since;
      assert events[i] == front[i] && events[j] == front[j];
    }
  }

  // ---- the partition is faithful ----

  lemma AppendStep(log: Log, op: Op, day: string)
    requires Consistent(log) && op.Append?
    ensures Consistent(Next(log, op))
    ensures FileOf(Next(log, op), day)
            == FileOf(log, day) + if Writes(log, op) && Day(op.ev) == day then [op.ev] else []
  {
    Seqs.Empty(FileOf(log, day));
  }

  lemma {:induction false} AlwaysConsistent(ops: seq<Op>)
    ensures Consistent(After(ops))
  {
    if ops == [] {
    } else {
      AlwaysConsistent(ops[..|ops| - 1]);
    }
  }

  /** A day file holds only events of its own date, whatever happened. */
  lemma {:induction false} FilesHoldTheirDay(ops: seq<Op>, day: string)
    ensures forall e | e in FileOf(After(ops), day) :: Day(e) == day
  {
    if ops == [] {
    } else {
      var front, op := ops[..|ops| - 1], ops[|ops| - 1];
      FilesHoldTheirDay(front, day);
      AlwaysConsistent(front);
      if op.Append? {
        AppendStep(After(front), op, day);
      }
    }
  }

  /** With dates moving either way and opens or writes failing anywhere, the file of a day that
      retention keeps is exactly the written events of that date, in order. */
  lemma {:induction false} DayFileIsSubsequence(ops: seq<Op>, day: string)
    requires forall i | 0 <= i < |ops| && ops[i].Retain? :: !Lex.Less(day, ops[i].cutoff)
    ensures FileOf(After(ops), day) == OfDay(Written(ops), day)
  {
    if ops == [] {
    } else {
      var front, op := ops[..|ops| - 1], ops[|ops| - 1];
      DayFileIsSubsequence(front, day);
      AlwaysConsistent(front);
      Seqs.Empty(Written(front));
      if op.Append? {
        AppendStep(After(front), op, day);
        Seqs.Empty(FileOf(After(front), day));
        OfDaySnoc(Written(front), op.ev, day);
      } else {
        assert ops[|ops| - 1].Retain?;
      }
    }
  }

  /** After retention only the open day, and days that could not be unlinked, can be left below the cutoff. */
  lemma RetentionRemovesOldDays(ops: seq<Op>, cutoff: string, stuck: set<string>, day: string)
    ensures var log := After(ops + [Retain(cutoff, stuck)]);
            Lex.Less(day, cutoff) ==> FileOf(log, day) == [] || log.currentDay == Some(day) || day in stuck
    ensures !Lex.Less(day, cutoff) ==> FileOf(After(ops + [Retain(cutoff, stuck)]), day) == FileOf(After(ops), day)
  {
    assert (ops + [Retain(cutoff, stuck)])[..|ops|] == ops;
  }

  lemma FileAfterRetain(log: Log, cutoff: string, stuck: set<string>, day: string)
    ensures FileOf(Next(log, Retain(cutoff, stuck)), day) == if Doomed(log, cutoff, stuck, day) then [] else FileOf(log, day)
  {
  }

  lemma OneAppend(e: Event)
    ensures After([Append(e, false, false)]) == Log(map[Day(e) := [e]], true, Some(Day(e)))
  {
    var op := Append(e, false, false);
    assert [op][..|[op]| - 1] == [];
    var none: seq<Event> := [];
    assert none + [e] == [e];
    assert Next(EMPTY, op).files == map[Day(e) := [e]];
  }

  // ---- which events are written ----

  /** The last append that got the day's file open, with no append of another day since. */
  predicate OpenedFor(ops: seq<Op>, day: string, k: int) {
    && 0 <= k < |ops| && ops[k].Append? && Day(ops[k].ev) == day && !ops[k].openFails
    && forall m | k < m < |ops| && ops[m].Append? :: Day(ops[m].ev) == day
  }

  ghost predicate IsOpenFor(ops: seq<Op>, day: string) {
    exists k :: OpenedFor(ops, day, k)
  }

  lemma OpenedSnoc(ops: seq<Op>, op: Op, day: string)
    ensures IsOpenFor(ops + [op], day) <==>
              if op.Append? then Day(op.ev) == day && (!op.openFails || IsOpenFor(ops, day)) else IsOpenFor(ops, day)
  {
    var longer, n := ops + [op], |ops|;
    assert longer[n] == op && forall m | 0 <= m < n :: longer[m] == ops[m];
    forall k | k < n
      ensures OpenedFor(longer, day, k) <==> OpenedFor(ops, day, k) && (op.Append? ==> Day(op.ev) == day)
    {
    }
    if op.Append? && Day(op.ev) == day && !op.openFails {
      assert OpenedFor(longer, day, n);
    }
    if k :| OpenedFor(ops, day, k) && (op.Append? ==> Day(op.ev) == day) {
      assert OpenedFor(longer, day, k);
    }
  }

  predicate StandsOn(log: Log, day: string) {
    log.open && log.currentDay == Some(day)
  }

  lemma StandsNext(log: Log, op: Op, day: string)
    ensures StandsOn(Next(log, op), day) <==>
              if op.Append? then Day(op.ev) == day && (!op.openFails || StandsOn(log, day)) else StandsOn(log, day)
  {
  }

  lemma {:induction false} OpenIff(ops: seq<Op>, day: string)
    ensures StandsOn(After(ops), day) <==> IsOpenFor(ops, day)
  {
    if ops == [] {
    } else {
      var front, op := ops[..|ops| - 1], ops[|ops| - 1];
      assert ops == front + [op];
      OpenIff(front, day);
      OpenedSnoc(front, op, day);
      StandsNext(After(front), op, day);
    }
  }

  /** An event reaches its file if and only if its own write works and its day's file got open: at this append or at
      an earlier one of the day, with none of another day in between. */
  lemma WrittenIff(ops: seq<Op>, op: Op)
    requires op.Append?
    ensures Written(ops + [op]) == Written(ops) + (if Writes(After(ops), op) then [op.ev] else [])
    ensures Writes(After(ops), op) <==> !op.writeFails && exists k :: OpenedFor(ops + [op], Day(op.ev), k)
  {
    assert (ops + [op])[..|ops|] == ops;
    OpenIff(ops, Day(op.ev));
    OpenedSnoc(ops, op, Day(op.ev));
  }

  /** The filter on types keeps exactly the events of those types. */
  lemma {:induction false} OfTypesMeans(types: set<string>, events: seq<Event>, e: Event)
    ensures multiset(OfTypes(types, events))[e]
            == if types == {} || TypeName(e.body) in types then multiset(events)[e] else 0
  {
    if events == [] {
    } else {
      var front, last := events[..|events| - 1], events[|events| - 1];
      OfTypesMeans(types, front, e);
      assert events == front + [last];
      Seqs.CountSnoc(front, last, e);
      OfTypesSnoc(types, front, last);
      Seqs.CountSnoc(OfTypes(types, front), last, e);
      Seqs.Empty(OfTypes(types, front));
    }
  }

  // ---- what the directory holds ----

  function Spared(log: Log, cutoff: string, stuck: set<string>, events: seq<Event>): seq<Event> {
    if events == [] then []
    else Spared(log, cutoff, stuck, events[..|events| - 1]) +
         if Doomed(log, cutoff, stuck, Day(events[|events| - 1])) then [] else [events[|events| - 1]]
  }

  /** The events the run wrote and retention did not remove, in the order of writing. */
  function Kept(ops: seq<Op>): seq<Event> {
    if ops == [] then []
    else
      var front, op := ops[..|ops| - 1], ops[|ops| - 1];
      match op
      case Append(ev, _, _) => Kept(front) + if Writes(After(front), op) then [ev] else []
      case Retain(cutoff, stuck) => Spared(After(front), cutoff, stuck, Kept(front))
  }

  lemma {:induction false} OfDayOfSpared(log: Log, cutoff: string, stuck: set<string>, events: seq<Event>, day: string)
    ensures OfDay(Spared(log, cutoff, stuck, events), day)
            == if Doomed(log, cutoff, stuck, day) then [] else OfDay(events, day)
  {
    if events == [] {
    } else {
      var front, e := events[..|events| - 1], events[|events| - 1];
      OfDayOfSpared(log, cutoff, stuck, front, day);
      Seqs.Empty(Spared(log, cutoff, stuck, front));
      if !Doomed(log, cutoff, stuck, Day(e)) {
        OfDaySnoc(Spared(log, cutoff, stuck, front), e, day);
      }
    }
  }

  /** Whatever was appended, failed and retained, each day file is its day of the kept events. */
  lemma {:induction false} FilesAreKept(ops: seq<Op>, day: string)
    ensures FileOf(After(ops), day) == OfDay(Kept(ops), day)
  {
    if ops == [] {
    } else {
      var front, op := ops[..|ops| - 1], ops[|ops| - 1];
      FilesAreKept(front, day);
      match op
      case Append(ev, _, _) =>
        AlwaysConsistent(front);
        AppendStep(After(front), op, day);
        Seqs.Empty(Kept(front));
        Seqs.Empty(FileOf(After(front), day));
        OfDaySnoc(Kept(front), ev, day);
      case Retain(cutoff, stuck) =>
        OfDayOfSpared(After(front), cutoff, stuck, Kept(front), day);
    }
  }

  /** Without retention nothing written is missing. */
  lemma {:induction false} AllIsKept(ops: seq<Op>)
    requires forall i | 0 <= i < |ops| :: ops[i].Append?
    ensures Kept(ops) == Written(ops)
  {
    if ops == [] {
    } else {
      AllIsKept(ops[..|ops| - 1]);
      assert ops[|ops| - 1].Append?;
    }
  }

  /** The early stop can miss an event: an old event appended after a newer one hides it. */
  lemma EarlyStopMisses(newer: Event, older: Event)
    requires When(older) < When(newer)
    ensures Newest(Some(When(newer)), [newer, older]) == [] && CountFrom(When(newer), [newer, older]) == 1
  {
    var since, two := When(newer), [newer, older];
    assert [newer][..0] == [];
    assert CountFrom(since, [newer]) == 1;
    assert two[..|two| - 1] == [newer] && two[|two| - 1] == older;
  }
}
