/** Retention on the single-file event log while appends go on (backend/event_log.py).

    The rewrite reads the file without the writer lock up to a size sampled at its start, then
    takes the lock to copy what arrived meanwhile and to swap the files.  Appends may land before
    every line the reader reads; the method takes them as an argument, so its contract speaks of
    every interleaving.  Characters stand for bytes. */
module LogRetention {
  import opened Prelude
  import opened JsonLines
  import IsoTime
  import Lex
  import Seqs

  /** The JSON texts, each without its newline, appended between two steps of the reader. */
  type Burst = seq<string>

  predicate PlainTexts(b: Burst) {
    forall i | 0 <= i < |b| :: '\n' !in b[i]
  }

  function Written(b: Burst): string {
    if b == [] then "" else Written(b[..|b| - 1]) + (b[|b| - 1] + "\n")
  }

  function AllWritten(bursts: seq<Burst>): string {
    if bursts == [] then "" else AllWritten(bursts[..|bursts| - 1]) + Written(bursts[|bursts| - 1])
  }

  function BurstLines(b: Burst): seq<string> {
    if b == [] then [] else BurstLines(b[..|b| - 1]) + [b[|b| - 1] + "\n"]
  }

  /** Each appended text as one line, in the order of appending. */
  function ArrivedLines(bursts: seq<Burst>): seq<string> {
    if bursts == [] then [] else ArrivedLines(bursts[..|bursts| - 1]) + BurstLines(bursts[|bursts| - 1])
  }

  /** `stampOf` is the timestamp string that parsing a line yields; None for a line that is not JSON
      or has no timestamp string. */
  predicate Survives(stampOf: string -> Option<string>, cutoff: string, line: string) {
    stampOf(line).Some? && !Lex.Less(stampOf(line).value, cutoff)
  }

  function Survivors(stampOf: string -> Option<string>, cutoff: string, lines: seq<string>): seq<string> {
    if lines == [] then []
    else (if Survives(stampOf, cutoff, lines[0]) then [lines[0]] else []) + Survivors(stampOf, cutoff, lines[1..])
  }

  class EventLog {
    var content: string       // the file at jsonl_path
    var open: bool            // the writer handle
    const stampOf: string -> Option<string>

    constructor (content: string, stampOf: string -> Option<string>)
      ensures this.content == content && this.stampOf == stampOf && open
    {
      this.content, this.stampOf, open := content, stampOf, true;
    }

    method Append(json: string)
      modifies this`content
      ensures content == old(content) + if open then json + "\n" else ""
    {
      if open {
        content := content + (json + "\n");
      }
    }

    method Appends(b: Burst)
      requires open
      modifies this`content
      ensures content == old(content) + Written(b)
    {
      var i := 0;
      assert b[..0] == [];
      while i < |b|
        invariant 0 <= i <= |b|
        invariant content == old(content) + Written(b[..i])
      {
        assert b[..i + 1][..i] == b[..i];
        Append(b[i]);
        i := i + 1;
      }
      assert b[..i] == b;
    }

    /** The final file is the surviving lines of the file as it was at the start, then every line
        appended during the rewrite, in order, none lost, doubled or torn.  A burst of appends, empty
        or not, lands before each line the reader asks for and one before the swap, so `used` of them
        came in time.  The writer is open, so the next append extends that file. */
    method PruneOlderThan(cutoff: string, bursts: seq<Burst>)
      returns (kept: nat, freed: nat, used: nat)
      requires open && WellFormed(content)
      requires forall i | 0 <= i < |bursts| :: PlainTexts(bursts[i])
      modifies this
      ensures open && used == Min(|bursts|, |Lines(old(content))| + 2)
      ensures content == Flat(Survivors(stampOf, cutoff, Lines(old(content)))) + AllWritten(bursts[..used])
      ensures Lines(content) == Survivors(stampOf, cutoff, Lines(old(content))) + ArrivedLines(bursts[..used])
      ensures WellFormed(content) && kept == |Lines(content)|
      ensures freed == |old(content)| - |Flat(Survivors(stampOf, cutoff, Lines(old(content))))|
    {
      ghost var start := content;
      var sampled := |content|;
      var rewritten;
      rewritten, kept, used := RewriteSampled(cutoff, bursts);
      AllWrittenLines(bursts[..used]);

      // under the lock, nothing interleaves
      var oldSize := |content|;
      kept := Swap(sampled, rewritten, kept, start, AllWritten(bursts[..used]));
      LinesOfFlatSurvivors(stampOf, cutoff, start);
      LinesAppend(rewritten, AllWritten(bursts[..used]));
      SurvivorsNoLonger(stampOf, cutoff, Lines(start));
      FlatOfLines(start);
      freed := Max(0, oldSize - |content|);
    }

    /** Phase 2: the tail catch-up and the rename. */
    method Swap(sampled: nat, rewritten: string, keptBefore: nat, ghost start: string, ghost arrived: string)
      returns (kept: nat)
      requires content == start + arrived && sampled == |start|
      requires WellFormed(rewritten) && WellFormed(arrived) && keptBefore == |Lines(rewritten)|
      modifies this
      ensures open && content == rewritten + arrived
      ensures WellFormed(content) && kept == |Lines(content)|
    {
      kept := keptBefore;
      var swapped := rewritten;
      open := false;
      LinesAppend(rewritten, arrived);
      if sampled < |content| {
        var tail := content[sampled..];
        assert tail == arrived;
        NewlinesCountLines(tail);
        swapped := swapped + tail;
        kept := kept + Newlines(tail);
      } else {
        assert arrived == "";
        Seqs.Empty(rewritten);
      }
      content := swapped;
      open := true;
    }

    /** One line of the reader: kept if it survives, unless it ends past the sampled size. */
    method TakeLine(cutoff: string, sampled: nat, bytesBefore: nat, posBefore: nat, before: string, keptBefore: nat,
                    ghost start: string, ghost arrived: string, ghost leftBefore: string)
      returns (more: bool, bytesRead: nat, pos: nat, rewritten: string, kept: nat, ghost left: string)
      requires ReadUpTo(stampOf, cutoff, start, arrived, content, posBefore, leftBefore, before, keptBefore)
      requires posBefore < |content| && bytesBefore == posBefore && sampled == |start|
      ensures ReadUpTo(stampOf, cutoff, start, arrived, content, pos, left, rewritten, kept)
      ensures more ==> bytesRead == pos && |Lines(leftBefore)| == |Lines(left)| + 1
      ensures !more ==> left == leftBefore == ""
    {
      var line := ReadLine(posBefore, leftBefore, arrived);
      bytesRead := bytesBefore + |line|;
      if sampled < bytesRead {
        // past the sampled end: the rest is copied under the lock
        return false, bytesRead, posBefore, before, keptBefore, leftBefore;
      }
      LineKeeps(stampOf, cutoff, start, arrived, content, posBefore, leftBefore, before, keptBefore);
      LinesStep(leftBefore);
      if Survives(stampOf, cutoff, line) {
        return true, bytesRead, posBefore + |line|, before + line, keptBefore + 1, leftBefore[|line|..];
      } else {
        return true, bytesRead, posBefore + |line|, before, keptBefore, leftBefore[|line|..];
      }
    }

    method ReadLine(pos: nat, ghost left: string, ghost arrived: string) returns (line: string)
      requires pos < |content| && content[pos..] == left + arrived && WellFormed(left)
      ensures 1 <= |line|
      ensures left != "" ==> line == FirstLine(left) && |line| <= |left|
    {
      line := FirstLine(content[pos..]);
      ReadInside(left, arrived);
    }

    /** Other threads append while the reader runs; what it has read and will read is not touched. */
    method OthersAppend(bursts: seq<Burst>, done: nat, ghost cutoff: string, ghost start: string,
                        ghost pos: nat, ghost left: string, ghost rewritten: string, ghost kept: nat)
      returns (used: nat)
      requires open && done <= |bursts|
      requires ReadUpTo(stampOf, cutoff, start, AllWritten(bursts[..done]), content, pos, left, rewritten, kept)
      modifies this`content
      ensures used == Min(|bursts|, done + 1)
      ensures ReadUpTo(stampOf, cutoff, start, AllWritten(bursts[..used]), content, pos, left, rewritten, kept)
    {
      used := done;
      if used < |bursts| {
        ghost var was, before := content, AllWritten(bursts[..used]);
        Appends(bursts[used]);
        Seqs.TakeSnoc(bursts, used);
        BurstKeeps(stampOf, cutoff, start, before, was, Written(bursts[used]), pos, left, rewritten, kept);
        used := used + 1;
      }
    }

    /** Phase 1, without the lock: reads on while appends land, and stops at the sampled end. */
    method RewriteSampled(cutoff: string, bursts: seq<Burst>)
      returns (rewritten: string, kept: nat, used: nat)
      requires open && WellFormed(content)
      requires forall i | 0 <= i < |bursts| :: PlainTexts(bursts[i])
      modifies this`content
      ensures used == Min(|bursts|, |Lines(old(content))| + 2) && content == old(content) + AllWritten(bursts[..used])
      ensures rewritten == Flat(Survivors(stampOf, cutoff, Lines(old(content))))
      ensures WellFormed(rewritten) && kept == |Lines(rewritten)|
    {
      var sampled := |content|;
      var bytesRead, pos: nat := 0, 0;
      rewritten, kept, used := "", 0, 0;
      ghost var start, left := content, content;   // left: the sampled text not read yet
      AtStart(stampOf, cutoff, start);
      var reading := true;
      ghost var asked := 0;                        // lines asked for
      while reading
        invariant used == Min(|bursts|, asked)
        invariant asked + |Lines(left)| == |Lines(start)| + if reading then 0 else 1
        invariant ReadUpTo(stampOf, cutoff, start, AllWritten(bursts[..used]), content, pos, left, rewritten, kept)
        invariant bytesRead == pos || !reading
        invariant !reading ==> left == ""
        decreases reading, |Lines(left)|
      {
        asked := asked + 1;
        used := OthersAppend(bursts, used, cutoff, start, pos, left, rewritten, kept);
        if pos == |content| {
          reading := false;
        } else {
          reading, bytesRead, pos, rewritten, kept, left :=
            TakeLine(cutoff, sampled, bytesRead, pos, rewritten, kept, start, AllWritten(bursts[..used]), left);
        }
      }
      used := OthersAppend(bursts, used, cutoff, start, pos, left, rewritten, kept);
      Seqs.Empty(rewritten);
    }
  }

  /** The reader's progress: it stands at `pos`, has `left` of the sampled text to read, and what it
      has written together with what it will still keep is what it should keep. */
  ghost predicate ReadUpTo(stampOf: string -> Option<string>, cutoff: string, start: string, arrived: string,
                           content: string, pos: nat, left: string, rewritten: string, kept: nat)
  {
    && content == start + arrived
    && |left| + pos == |start| && WellFormed(left)
    && content[pos..] == left + arrived
    && rewritten + Flat(Survivors(stampOf, cutoff, Lines(left))) == Flat(Survivors(stampOf, cutoff, Lines(start)))
    && WellFormed(rewritten) && kept == |Lines(rewritten)|
  }

  lemma AtStart(stampOf: string -> Option<string>, cutoff: string, start: string)
    requires WellFormed(start)
    ensures ReadUpTo(stampOf, cutoff, start, AllWritten([]), start, 0, start, "", 0)
  {
    Seqs.Whole(start);
    Seqs.Empty(start);
    Seqs.Empty(Flat(Survivors(stampOf, cutoff, Lines(start))));
  }

  lemma BurstKeeps(stampOf: string -> Option<string>, cutoff: string, start: string, arrived: string,
                   content: string, more: string, pos: nat, left: string, rewritten: string, kept: nat)
    requires ReadUpTo(stampOf, cutoff, start, arrived, content, pos, left, rewritten, kept)
    ensures ReadUpTo(stampOf, cutoff, start, arrived + more, content + more, pos, left, rewritten, kept)
  {
    Seqs.Assoc(start, arrived, more);
    Seqs.Assoc(left, arrived, more);
    Seqs.DropAppend(content, more, pos);
  }

  lemma LineKeeps(stampOf: string -> Option<string>, cutoff: string, start: string, arrived: string,
                  content: string, pos: nat, left: string, rewritten: string, kept: nat)
    requires ReadUpTo(stampOf, cutoff, start, arrived, content, pos, left, rewritten, kept) && left != ""
    ensures var line := FirstLine(left);
            var keep := Survives(stampOf, cutoff, line);
            ReadUpTo(stampOf, cutoff, start, arrived, content, pos + |line|, left[|line|..],
                     if keep then rewritten + line else rewritten, if keep then kept + 1 else kept)
  {
    var line := FirstLine(left);
    Seqs.DropAppend(left, arrived, |line|);
    Seqs.DropDrop(content, pos, |line|);
    WrittenKeeps(stampOf, cutoff, left, rewritten);
  }

  lemma WrittenKeeps(stampOf: string -> Option<string>, cutoff: string, left: string, rewritten: string)
    requires left != "" && WellFormed(left) && WellFormed(rewritten)
    ensures var line := FirstLine(left);
            var keep := Survives(stampOf, cutoff, line);
            var longer := if keep then rewritten + line else rewritten;
            && longer + Flat(Survivors(stampOf, cutoff, Lines(left[|line|..])))
               == rewritten + Flat(Survivors(stampOf, cutoff, Lines(left)))
            && WellFormed(longer) && |Lines(longer)| == |Lines(rewritten)| + if keep then 1 else 0
  {
    var line := FirstLine(left);
    var rest := Flat(Survivors(stampOf, cutoff, Lines(left[|line|..])));
    SurviveStep(left, cutoff, stampOf);
    SingleLine(left);
    LinesAppend(rewritten, line);
    Seqs.Assoc(rewritten, line, rest);
    Seqs.Empty(rest);
  }

  /** A line read while sampled text is left is a line of that text, whatever has been appended;
      with none left it is appended text. */
  lemma ReadInside(left: string, arrived: string)
    requires WellFormed(left) && left + arrived != ""
    ensures left != "" ==> FirstLine(left + arrived) == FirstLine(left)
  {
    if left != "" {
      FirstLineStable(left, arrived);
    }
  }

  lemma SurviveStep(left: string, cutoff: string, stampOf: string -> Option<string>)
    requires left != "" && WellFormed(left)
    ensures Flat(Survivors(stampOf, cutoff, Lines(left)))
            == (if Survives(stampOf, cutoff, FirstLine(left)) then FirstLine(left) else "")
               + Flat(Survivors(stampOf, cutoff, Lines(left[|FirstLine(left)|..])))
  {
    LinesStep(left);
    FirstSurvivor(stampOf, cutoff, FirstLine(left), Lines(left[|FirstLine(left)|..]));
  }

  lemma FirstSurvivor(stampOf: string -> Option<string>, cutoff: string, line: string, rest: seq<string>)
    ensures Flat(Survivors(stampOf, cutoff, [line] + rest))
            == (if Survives(stampOf, cutoff, line) then line else "") + Flat(Survivors(stampOf, cutoff, rest))
  {
    assert ([line] + rest)[1..] == rest;
    var kept := Survivors(stampOf, cutoff, rest);
    if Survives(stampOf, cutoff, line) {
      assert ([line] + kept)[1..] == kept;
    } else {
      assert [] + kept == kept;
    }
  }

  /** The first line of a well-formed text is exactly one line. */
  lemma {:induction false} SingleLine(c: string)
    requires c != "" && WellFormed(c)
    ensures Lines(FirstLine(c)) == [FirstLine(c)] && WellFormed(FirstLine(c))
  {
    FirstOfFirst(c);
    assert FirstLine(c)[|FirstLine(c)|..] == "";
  }

  lemma {:induction false} FirstOfFirst(c: string)
    requires c != ""
    ensures FirstLine(FirstLine(c)) == FirstLine(c)
  {
    if !(c[0] == '\n' || |c| == 1) {
      FirstOfFirst(c[1..]);
      assert FirstLine(c)[1..] == FirstLine(c[1..]);
    }
  }

  lemma {:induction false} WrittenLines(b: Burst)
    requires PlainTexts(b)
    ensures WellFormed(Written(b)) && Lines(Written(b)) == BurstLines(b)
  {
    if b == [] {
    } else {
      var front, last := b[..|b| - 1], b[|b| - 1];
      WrittenLines(front);
      OneLine(last);
      LinesAppend(Written(front), last + "\n");
      EndsWell(Written(front), last + "\n");
    }
  }

  lemma {:induction false} AllWrittenLines(bursts: seq<Burst>)
    requires forall i | 0 <= i < |bursts| :: PlainTexts(bursts[i])
    ensures WellFormed(AllWritten(bursts)) && Lines(AllWritten(bursts)) == ArrivedLines(bursts)
  {
    if bursts == [] {
    } else {
      var front, last := bursts[..|bursts| - 1], bursts[|bursts| - 1];
      AllWrittenLines(front);
      WrittenLines(last);
      LinesAppend(AllWritten(front), Written(last));
      EndsWell(AllWritten(front), Written(last));
    }
  }

  lemma {:induction false} SurvivorsNoLonger(stampOf: string -> Option<string>, cutoff: string, lines: seq<string>)
    ensures |Flat(Survivors(stampOf, cutoff, lines))| <= |Flat(lines)|
  {
    if lines == [] {
    } else {
      var rest := Survivors(stampOf, cutoff, lines[1..]);
      SurvivorsNoLonger(stampOf, cutoff, lines[1..]);
      FlatAppend(if Survives(stampOf, cutoff, lines[0]) then [lines[0]] else [], rest);
      assert Flat([lines[0]]) == lines[0] + Flat([]) == lines[0];
    }
  }

  // ---- what survival means ----

  /** On event lines the text comparison is the comparison of instants. */
  lemma SurvivalIsByInstant(stampOf: string -> Option<string>, line: string,
                            at: IsoTime.DateTime, cutoff: IsoTime.DateTime)
    requires IsoTime.Valid(at) && IsoTime.Valid(cutoff)
    requires stampOf(line) == Some(IsoTime.Iso(at))
    ensures Survives(stampOf, IsoTime.Iso(cutoff), line) <==> IsoTime.Micros(cutoff) <= IsoTime.Micros(at)
  {
    IsoTime.IsoOrderIsTimeOrder(at, cutoff);
  }

  predicate NoneOlder(stampOf: string -> Option<string>, cutoff: string, content: string) {
    forall l | l in Lines(content) :: Survives(stampOf, cutoff, l)
  }

  lemma {:induction false} SurvivorsSurvive(stampOf: string -> Option<string>, cutoff: string, lines: seq<string>)
    ensures forall l :: l in Survivors(stampOf, cutoff, lines) <==> l in lines && Survives(stampOf, cutoff, l)
  {
    if lines == [] {
    } else {
      SurvivorsSurvive(stampOf, cutoff, lines[1..]);
    }
  }

  /** Of the sampled part exactly the lines with a timestamp string at or after the cutoff are kept; a line that
      cannot be read, or has none, goes. */
  lemma SampledLinesKept(stampOf: string -> Option<string>, cutoff: string, before: string, l: string)
    requires WellFormed(before)
    ensures l in Lines(Flat(Survivors(stampOf, cutoff, Lines(before))))
            <==> l in Lines(before) && stampOf(l).Some? && (stampOf(l).value == cutoff || Lex.Less(cutoff, stampOf(l).value))
  {
    LinesOfFlatSurvivors(stampOf, cutoff, before);
    SurvivorsSurvive(stampOf, cutoff, Lines(before));
    if stampOf(l).Some? {
      Lex.LessIsStrictOrder(stampOf(l).value, cutoff, cutoff);
    }
  }

  /** A text that is exactly one line. */
  predicate Proper(l: string) {
    WellFormed(l) && Lines(l) == [l]
  }

  predicate AllProper(ls: seq<string>) {
    forall i | 0 <= i < |ls| :: Proper(ls[i])
  }

  lemma ConsProper(l: string, ls: seq<string>)
    ensures Proper(l) && AllProper(ls) ==> AllProper([l] + ls)
    ensures AllProper([l] + ls) ==> Proper(l) && AllProper(ls)
  {
    if AllProper([l] + ls) {
      assert Proper(([l] + ls)[0]);
      assert forall i | 0 <= i < |ls| :: ls[i] == ([l] + ls)[i + 1];
    }
  }

  lemma {:induction false} LinesAreProper(c: string)
    requires WellFormed(c)
    ensures AllProper(Lines(c))
    decreases |c|
  {
    if c == "" {
    } else {
      var after := c[|FirstLine(c)|..];
      LinesAreProper(after);
      SingleLine(c);
      LinesStep(c);
      ConsProper(FirstLine(c), Lines(after));
    }
  }

  lemma {:induction false} LinesOfFlat(ls: seq<string>)
    requires AllProper(ls)
    ensures WellFormed(Flat(ls)) && Lines(Flat(ls)) == ls
  {
    if ls == [] {
    } else {
      var l, rest := ls[0], ls[1..];
      assert ls == [l] + rest;
      ConsProper(l, rest);
      LinesOfFlat(rest);
      LinesAppend(l, Flat(rest));
      EndsWell(l, Flat(rest));
    }
  }

  lemma EndsWell(a: string, b: string)
    requires WellFormed(a) && WellFormed(b)
    ensures WellFormed(a + b)
  {
    Seqs.Empty(a);
  }

  lemma {:induction false} SurvivorsAreProper(stampOf: string -> Option<string>, cutoff: string, lines: seq<string>)
    requires AllProper(lines)
    ensures AllProper(Survivors(stampOf, cutoff, lines))
  {
    if lines == [] {
    } else {
      var l, rest := lines[0], lines[1..];
      assert lines == [l] + rest;
      ConsProper(l, rest);
      SurvivorsAreProper(stampOf, cutoff, rest);
      ConsProper(l, Survivors(stampOf, cutoff, rest));
      Seqs.Empty(Survivors(stampOf, cutoff, rest));
    }
  }

  lemma LinesOfFlatSurvivors(stampOf: string -> Option<string>, cutoff: string, c: string)
    requires WellFormed(c)
    ensures Lines(Flat(Survivors(stampOf, cutoff, Lines(c)))) == Survivors(stampOf, cutoff, Lines(c))
    ensures WellFormed(Flat(Survivors(stampOf, cutoff, Lines(c))))
  {
    LinesAreProper(c);
    SurvivorsAreProper(stampOf, cutoff, Lines(c));
    LinesOfFlat(Survivors(stampOf, cutoff, Lines(c)));
  }

  /** The tail is copied unfiltered: the pruned file is free of old lines if and only if no old line
      arrived during the rewrite (a replay can write one). */
  lemma PrunedFileIsRecentIff(stampOf: string -> Option<string>, cutoff: string, before: string, arrived: string)
    requires WellFormed(before)
    ensures NoneOlder(stampOf, cutoff, Flat(Survivors(stampOf, cutoff, Lines(before))) + arrived)
            <==> NoneOlder(stampOf, cutoff, arrived)
  {
    var kept := Survivors(stampOf, cutoff, Lines(before));
    LinesOfFlatSurvivors(stampOf, cutoff, before);
    LinesAppend(Flat(kept), arrived);
    SurvivorsSurvive(stampOf, cutoff, Lines(before));
    assert forall l :: l in Lines(Flat(kept) + arrived) <==> l in kept || l in Lines(arrived);
  }

  /** An instance: a replayed event from before the cutoff, appended during the rewrite of an empty log. */
  lemma OldTailIsKept(stampOf: string -> Option<string>, json: string)
    requires '\n' !in json && stampOf(json + "\n") == Some("2024-01-01T00:00:00")
    ensures var cutoff := "2025-01-01T00:00:00";
            !NoneOlder(stampOf, cutoff, Flat(Survivors(stampOf, cutoff, Lines(""))) + (json + "\n"))
  {
    var cutoff := "2025-01-01T00:00:00";
    OneLine(json);
    PrunedFileIsRecentIff(stampOf, cutoff, "", json + "\n");
    assert Lines(json + "\n") == [json + "\n"];
    assert Lex.Less("4-01-01T00:00:00", "5-01-01T00:00:00");
    Lex.LessOfAppend("202", "4-01-01T00:00:00", "202", "5-01-01T00:00:00");
    assert "202" + "4-01-01T00:00:00" == "2024-01-01T00:00:00" && "202" + "5-01-01T00:00:00" == cutoff;
    assert !Survives(stampOf, cutoff, json + "\n");
  }
}
