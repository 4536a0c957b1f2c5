/** The crash-restartable split of a legacy log into day files (backend/export.py), together
    with what may run beside it: the operator moving the legacy file, the writer that opens
    only after the migration returned (backend/cli.py), and crashes anywhere.

    A run is a sequence of atomic file-system steps.  An exception (disk full, legacy file gone
    between check and open) ends the process and is a crash. */
module Migration {
  import opened Prelude
  import IsoTime

  /** One line of the legacy file.  `stamp` is the timestamp string json.loads finds in it, None
      when the line is not JSON or carries no timestamp string. */
  datatype Line = Line(body: string, newline: bool, stamp: Option<string>)

  datatype Bucket = OfDay(day: string) | UnknownDate

  type Files = map<Bucket, seq<Line>>

  predicate IsSpace(c: char) {
    c == ' ' || '\t' <= c <= '\r' || 28 <= c as int <= 31
  }

  predicate Blank(l: Line) {
    forall i | 0 <= i < |l.body| :: IsSpace(l.body[i])
  }

  function ExtractDay(l: Line): Option<string> {
    if l.stamp.Some? && 10 <= |l.stamp.value| && IsoTime.IsDayText(l.stamp.value[..10])
    then Some(l.stamp.value[..10])
    else None
  }

  function BucketOf(l: Line): Bucket {
    match ExtractDay(l)
    case Some(day) => OfDay(day)
    case None => UnknownDate
  }

  function Terminated(l: Line): Line {
    l.(newline := true)
  }

  // ---- what the split means ----

  function NonBlank(lines: seq<Line>): seq<Line> {
    if lines == [] then []
    else NonBlank(lines[..|lines| - 1]) +
         if Blank(lines[|lines| - 1]) then [] else [Terminated(lines[|lines| - 1])]
  }

  /** The non-blank lines of one bucket, in the order of the legacy file. */
  function InBucket(lines: seq<Line>, b: Bucket): seq<Line> {
    if lines == [] then []
    else InBucket(lines[..|lines| - 1], b) +
         var l := lines[|lines| - 1];
         if !Blank(l) && BucketOf(l) == b then [Terminated(l)] else []
  }

  function Put(files: Files, l: Line): Files {
    var b := BucketOf(l);
    if Blank(l) then files
    else files[b := (if b in files then files[b] else []) + [Terminated(l)]]
  }

  function Split(lines: seq<Line>): Files {
    if lines == [] then map[] else Put(Split(lines[..|lines| - 1]), lines[|lines| - 1])
  }

  /** Each bucket file holds exactly its own lines in legacy order, and no empty file is made. */
  lemma {:induction false} SplitIsFaithful(lines: seq<Line>, b: Bucket)
    ensures b in Split(lines) <==> InBucket(lines, b) != []
    ensures b in Split(lines) ==> Split(lines)[b] == InBucket(lines, b)
  {
    if lines == [] {
    } else {
      SplitIsFaithful(lines[..|lines| - 1], b);
    }
  }

  ghost function TotalLines(files: Files): multiset<Line> {
    if files == map[] then multiset{}
    else
      var b :| b in files;
      multiset(files[b]) + TotalLines(files - {b})
  }

  lemma {:induction false} TotalOfPart(files: Files, b: Bucket)
    requires b in files
    ensures TotalLines(files) == multiset(files[b]) + TotalLines(files - {b})
    decreases |files|
  {
    var c :| c in files && TotalLines(files) == multiset(files[c]) + TotalLines(files - {c});
    if c != b {
      TotalOfPart(files - {c}, b);
      TotalOfPart(files - {b}, c);
      DropBoth(files, b, c);
    }
  }

  lemma DropBoth(files: Files, b: Bucket, c: Bucket)
    ensures files - {c} - {b} == files - {b} - {c}
  {
    assert files.Keys - {c} - {b} == files.Keys - {b} - {c};
  }

  lemma PutAddsOneLine(files: Files, l: Line)
    requires !Blank(l)
    ensures TotalLines(Put(files, l)) == TotalLines(files) + multiset{Terminated(l)}
  {
    var b := BucketOf(l);
    var was := if b in files then files[b] else [];
    ReplaceInTotal(files, b, was + [Terminated(l)]);
    assert multiset(was + [Terminated(l)]) == multiset(was) + multiset{Terminated(l)};
    Cancel(TotalLines(Put(files, l)), TotalLines(files), multiset(was), multiset{Terminated(l)});
  }

  lemma Cancel(a: multiset<Line>, b: multiset<Line>, m: multiset<Line>, n: multiset<Line>)
    requires a + m == b + (m + n)
    ensures a == b + n
  {
    forall l ensures a[l] == (b + n)[l] {
      assert (a + m)[l] == (b + (m + n))[l];
    }
  }

  lemma ReplaceInTotal(files: Files, b: Bucket, content: seq<Line>)
    ensures TotalLines(files[b := content]) + multiset(if b in files then files[b] else [])
            == TotalLines(files) + multiset(content)
  {
    var grown := files[b := content];
    TotalOfPart(grown, b);
    if b in files {
      TotalOfPart(files, b);
      assert grown - {b} == files - {b};
    } else {
      assert grown - {b} == files;
    }
  }

  /** Nothing is dropped and nothing is doubled: all buckets together hold each non-blank line once. */
  lemma {:induction false} SplitLosesNothing(lines: seq<Line>)
    ensures TotalLines(Split(lines)) == multiset(NonBlank(lines))
  {
    if lines == [] {
    } else {
      var front, l := lines[..|lines| - 1], lines[|lines| - 1];
      SplitLosesNothing(front);
      if !Blank(l) {
        PutAddsOneLine(Split(front), l);
      }
    }
  }

  // ---- the file system and the processes ----

  datatype Fs = Fs(
    legacy: Option<seq<Line>>,     // events.jsonl
    migrated: Option<seq<Line>>,   // events.jsonl.migrated
    days: Files,                   // events/*.jsonl
    tmpDir: bool,                  // events/.migrate-tmp
    staged: Files,                 // .migrate-tmp/*.jsonl
    marker: bool)                  // .migrate-tmp/COMPLETE

  datatype Pc =
    | Down
    | Wiping                                           // rmtree of a stale staging directory
    | Bucketing(done: seq<Line>, rest: seq<Line>)      // reading the opened legacy file
    | Moving                                           // renaming staged files
    | Unmarking | RemovingTmp
    | Serving                                          // migrate_monolith returned, writer open

  datatype World = World(fs: Fs, pc: Pc)

  datatype Action =
    // steps of migrate_monolith
    | Start | WipeFile(b: Bucket) | Open | BucketLine | Mark
    | Move(b: Bucket) | RetireLegacy | Unmark | RemoveTmp
    // the rest of the world
    | Crash(torn: Files)
    | OperatorPut(lines: seq<Line>) | OperatorTake
    | WriterAppend(b: Bucket, l: Line)

  predicate ProgramStep(a: Action) {
    !a.Crash? && !a.OperatorPut? && !a.OperatorTake? && !a.WriterAppend?
  }

  predicate Enabled(w: World, a: Action) {
    match a
    case Start => w.pc == Down
    case WipeFile(b) => w.pc == Wiping && b in w.fs.staged
    case Open => w.pc == Wiping && w.fs.staged == map[] && w.fs.legacy.Some?
    case BucketLine => w.pc.Bucketing? && w.pc.rest != []
    case Mark => w.pc.Bucketing? && w.pc.rest == []
    case Move(b) => w.pc == Moving && b in w.fs.staged
    case RetireLegacy => w.pc == Moving && w.fs.staged == map[]
    case Unmark => w.pc == Unmarking
    case RemoveTmp => w.pc == RemovingTmp
    case Crash(_) => true
    case OperatorPut(_) => true
    case OperatorTake => true
    case WriterAppend(_, _) => w.pc == Serving
  }

  /** The order of the checks: a marker first, then the legacy file, then existing day files. */
  function Started(fs: Fs): Pc {
    if fs.marker then Moving
    else if fs.legacy.None? then Serving
    else if fs.days != map[] then Down   // MigrationRefused ends the process
    else Wiping
  }

  function Next(w: World, a: Action): World
    requires Enabled(w, a)
  {
    var fs := w.fs;
    match a
    case Start => World(fs, Started(fs))
    case WipeFile(b) => World(fs.(staged := fs.staged - {b}), Wiping)
    case Open => World(fs.(tmpDir := true), Bucketing([], fs.legacy.value))
    case BucketLine =>
      var l := w.pc.rest[0];
      World(fs.(staged := Put(fs.staged, l)), Bucketing(w.pc.done + [l], w.pc.rest[1..]))
    case Mark => World(fs.(marker := true), Moving)
    case Move(b) => World(fs.(days := fs.days[b := fs.staged[b]], staged := fs.staged - {b}), Moving)
    case RetireLegacy =>
      if fs.legacy.Some? then World(fs.(migrated := fs.legacy, legacy := None), Unmarking)
      else World(fs, Unmarking)
    case Unmark => World(fs.(marker := false), RemovingTmp)
    case RemoveTmp => World(fs.(tmpDir := false), Serving)
    // Buffered, unsynced bucket files may be left in any state.
    case Crash(torn) => World(if w.pc.Bucketing? then fs.(staged := torn) else fs, Down)
    case OperatorPut(lines) => World(fs.(legacy := Some(lines)), w.pc)
    case OperatorTake => World(fs.(legacy := None), w.pc)
    case WriterAppend(b, l) =>
      World(fs.(days := fs.days[b := (if b in fs.days then fs.days[b] else []) + [l]]), w.pc)
  }

  predicate Run(w: World, acts: seq<Action>)
    decreases |acts|
  {
    acts == [] || (Enabled(w, acts[0]) && Run(Next(w, acts[0]), acts[1..]))
  }

  function After(w: World, acts: seq<Action>): World
    requires Run(w, acts)
    decreases |acts|
  {
    if acts == [] then w else After(Next(w, acts[0]), acts[1..])
  }

  lemma {:induction false} RunSnoc(w: World, acts: seq<Action>, a: Action)
    requires Run(w, acts) && Enabled(After(w, acts), a)
    ensures Run(w, acts + [a]) && After(w, acts + [a]) == Next(After(w, acts), a)
    decreases |acts|
  {
    if acts == [] {
      assert (acts + [a])[1..] == [];
    } else {
      RunSnoc(Next(w, acts[0]), acts[1..], a);
      assert (acts + [a])[1..] == acts[1..] + [a];
    }
  }

  // ---- never clobber ----

  /** While the marker exists, staged names and present day files are disjoint. */
  predicate Disjoint(w: World) {
    && (w.fs.marker ==> w.fs.staged.Keys !! w.fs.days.Keys)
    && (w.pc.Wiping? || w.pc.Bucketing? ==> !w.fs.marker && w.fs.days == map[])
    && (w.pc.Moving? ==> w.fs.marker)
    && (w.pc.Unmarking? ==> w.fs.staged == map[])
    && (w.pc.RemovingTmp? || w.pc.Serving? ==> !w.fs.marker)
  }

  /** Every day file keeps its whole content and can only grow at its end. */
  predicate OnlyGrows(before: Files, after: Files) {
    forall b | b in before :: b in after && before[b] <= after[b]
  }

  lemma DisjointStep(w: World, a: Action)
    requires Disjoint(w) && Enabled(w, a)
    ensures Disjoint(Next(w, a))
    ensures OnlyGrows(w.fs.days, Next(w, a).fs.days)
    ensures a.Move? ==> a.b !in w.fs.days
  {
  }

  /** No rename ever targets an existing day file, and no day file ever loses a line, in any
      interleaving of runs, crashes, operator moves and the writer. */
  lemma {:induction false} NeverClobbers(w: World, acts: seq<Action>)
    requires Disjoint(w) && Run(w, acts)
    ensures Disjoint(After(w, acts))
    ensures OnlyGrows(w.fs.days, After(w, acts).fs.days)
    ensures forall i | 0 <= i < |acts| && acts[i].Move? ::
              Run(w, acts[..i]) && acts[i].b !in After(w, acts[..i]).fs.days
    decreases |acts|
  {
    if acts == [] {
    } else {
      DisjointStep(w, acts[0]);
      var w' := Next(w, acts[0]);
      NeverClobbers(w', acts[1..]);
      forall i | 0 <= i < |acts| && acts[i].Move?
        ensures Run(w, acts[..i]) && acts[i].b !in After(w, acts[..i]).fs.days
      {
        if i != 0 {
          assert acts[1..][i - 1] == acts[i];
          assert acts[..i][1..] == acts[1..][..i - 1];
        }
      }
    }
  }

  // ---- surviving crashes ----

  /** Where the legacy content `orig` is, in any state of any run that only crashes. */
  predicate Accounted(w: World, orig: seq<Line>) {
    var fs := w.fs;
    if fs.legacy == Some(orig) then
      if !fs.marker then
        // not yet sealed: the legacy file is the untouched whole
        && fs.days == map[]
        && (w.pc.Down? || w.pc.Wiping? || w.pc.Bucketing?)
        && (w.pc.Bucketing? ==> w.pc.done + w.pc.rest == orig && fs.staged == Split(w.pc.done))
      else
        // sealed: each bucket is either staged or in place
        && fs.staged.Keys !! fs.days.Keys
        && fs.staged + fs.days == Split(orig)
        && (w.pc.Down? || w.pc.Moving?)
    else
      && fs.legacy == None && fs.migrated == Some(orig)
      && fs.days == Split(orig) && fs.staged == map[]
      && (fs.marker ==> w.pc.Down? || w.pc.Moving? || w.pc.Unmarking?)
      && (!fs.marker ==> w.pc.Down? || w.pc.RemovingTmp? || w.pc.Serving?)
  }

  lemma AccountedBucketLine(w: World, orig: seq<Line>)
    requires Accounted(w, orig) && Enabled(w, BucketLine)
    ensures Accounted(Next(w, BucketLine), orig)
  {
    var done, rest := w.pc.done, w.pc.rest;
    var l := rest[0];
    assert w.fs.legacy == Some(orig) && !w.fs.marker;
    assert (done + [l]) + rest[1..] == done + rest;
    assert (done + [l])[..|done|] == done;
    assert Split(done + [l]) == Put(Split(done), l);
  }

  lemma AccountedMove(w: World, b: Bucket, orig: seq<Line>)
    requires Accounted(w, orig) && Enabled(w, Move(b))
    ensures Accounted(Next(w, Move(b)), orig)
  {
    var t := Next(w, Move(b));
    assert w.fs.legacy == Some(orig) && w.fs.marker;
    assert t.fs.staged + t.fs.days == w.fs.staged + w.fs.days;
  }

  lemma AccountedSeal(w: World, a: Action, orig: seq<Line>)
    requires Accounted(w, orig) && Enabled(w, a) && (a.Open? || a.Mark? || a.RetireLegacy?)
    ensures Accounted(Next(w, a), orig)
  {
    if a.Open? {
      assert [] + orig == orig;
    } else if a.Mark? {
      assert w.pc.done + [] == w.pc.done;
      assert w.fs.staged + map[] == w.fs.staged;
    } else if w.fs.legacy.Some? {
      assert map[] + w.fs.days == w.fs.days;
    }
  }

  lemma AccountedStep(w: World, a: Action, orig: seq<Line>)
    requires Accounted(w, orig) && Enabled(w, a) && (ProgramStep(a) || a.Crash?)
    ensures Accounted(Next(w, a), orig)
  {
    if a.BucketLine? {
      AccountedBucketLine(w, orig);
    } else if a.Move? {
      AccountedMove(w, a.b, orig);
    } else if a.Open? || a.Mark? || a.RetireLegacy? {
      AccountedSeal(w, a, orig);
    } else {
      assert a.Start? || a.WipeFile? || a.Unmark? || a.RemoveTmp? || a.Crash?;
    }
  }

  /** The untouched start: a legacy file and nothing else. */
  function Fresh(orig: seq<Line>): World {
    World(Fs(Some(orig), None, map[], false, map[], false), Down)
  }

  lemma {:induction false} AlwaysAccounted(w: World, acts: seq<Action>, orig: seq<Line>)
    requires Accounted(w, orig) && Run(w, acts)
    requires forall i | 0 <= i < |acts| :: ProgramStep(acts[i]) || acts[i].Crash?
    ensures Accounted(After(w, acts), orig)
    decreases |acts|
  {
    if acts == [] {
    } else {
      assert ProgramStep(acts[0]) || acts[0].Crash?;
      AccountedStep(w, acts[0], orig);
      AlwaysAccounted(Next(w, acts[0]), acts[1..], orig);
    }
  }

  /** Any number of runs, each crashing after any step: whenever a run gets through, every
      non-blank line is in its one bucket, in legacy order, and the whole legacy content is kept. */
  lemma MigrationSurvivesCrashes(orig: seq<Line>, acts: seq<Action>)
    requires Run(Fresh(orig), acts)
    requires forall i | 0 <= i < |acts| :: ProgramStep(acts[i]) || acts[i].Crash?
    ensures var fs := After(Fresh(orig), acts).fs;
            After(Fresh(orig), acts).pc == Serving ==>
              && (forall b :: (if b in fs.days then fs.days[b] else []) == InBucket(orig, b))
              && TotalLines(fs.days) == multiset(NonBlank(orig))
              && fs.migrated == Some(orig) && fs.legacy == None
              && fs.staged == map[] && !fs.marker
  {
    AlwaysAccounted(Fresh(orig), acts, orig);
    forall b ensures b in Split(orig) <==> InBucket(orig, b) != []
             ensures b in Split(orig) ==> Split(orig)[b] == InBucket(orig, b)
    {
      SplitIsFaithful(orig, b);
    }
    SplitLosesNothing(orig);
  }

  /** At every moment of every such history, crashed or not, no line is out of reach: the legacy
      content is intact under its old or its new name. */
  lemma LegacyNeverLost(orig: seq<Line>, acts: seq<Action>)
    requires Run(Fresh(orig), acts)
    requires forall i | 0 <= i < |acts| :: ProgramStep(acts[i]) || acts[i].Crash?
    ensures var fs := After(Fresh(orig), acts).fs;
            fs.legacy == Some(orig) || (fs.legacy == None && fs.migrated == Some(orig))
  {
    AlwaysAccounted(Fresh(orig), acts, orig);
  }

  // ---- the next run gets through ----

  /** The program steps left, at most. */
  function Rank(w: World): nat {
    var legacy := if w.fs.legacy.Some? then |w.fs.legacy.value| else 0;
    match w.pc
    case Down => 6 + 2 * legacy + |w.fs.staged|
    case Wiping => 5 + 2 * legacy + |w.fs.staged|
    case Bucketing(done, rest) => 4 + 2 * |rest| + |w.fs.staged|
    case Moving => 3 + |w.fs.staged|
    case Unmarking => 2
    case RemovingTmp => 1
    case Serving => 0
  }

  lemma RankDrops(w: World, a: Action, orig: seq<Line>)
    requires Accounted(w, orig) && Enabled(w, a) && ProgramStep(a)
    ensures Rank(Next(w, a)) < Rank(w)
  {
    if a.WipeFile? || a.Move? {
      OneLess(w.fs.staged, a.b);
    } else if a.BucketLine? {
      AtMostOneMore(w.fs.staged, w.pc.rest[0]);
    } else {
      RankDropsAtSeal(w, a, orig);
    }
  }

  lemma RankDropsAtSeal(w: World, a: Action, orig: seq<Line>)
    requires Accounted(w, orig) && Enabled(w, a) && ProgramStep(a)
    requires !a.WipeFile? && !a.Move? && !a.BucketLine?
    ensures Rank(Next(w, a)) < Rank(w)
  {
  }

  lemma OneLess(files: Files, b: Bucket)
    requires b in files
    ensures |files - {b}| + 1 == |files|
  {
    assert (files - {b}).Keys == files.Keys - {b};
  }

  lemma AtMostOneMore(files: Files, l: Line)
    ensures |Put(files, l)| <= |files| + 1
  {
    assert Put(files, l).Keys == if Blank(l) then files.Keys else files.Keys + {BucketOf(l)};
  }

  /** The step the program takes next. */
  ghost function NextStep(w: World): (a: Action)
    requires w.pc != Serving && (w.pc == Wiping ==> w.fs.legacy.Some?)
    ensures Enabled(w, a) && ProgramStep(a)
  {
    match w.pc
    case Down => Start
    case Wiping => if w.fs.staged == map[] then Open else var b :| b in w.fs.staged; WipeFile(b)
    case Bucketing(done, rest) => if rest == [] then Mark else BucketLine
    case Moving => if w.fs.staged == map[] then RetireLegacy else var b :| b in w.fs.staged; Move(b)
    case Unmarking => Unmark
    case RemovingTmp => RemoveTmp
  }

  predicate ProgramSteps(acts: seq<Action>) {
    forall i | 0 <= i < |acts| :: ProgramStep(acts[i])
  }

  /** A run left alone is short, and where it can go no further it serves. */
  lemma {:induction false} LeftAloneItServes(w: World, acts: seq<Action>, orig: seq<Line>)
    requires Accounted(w, orig) && Run(w, acts) && ProgramSteps(acts)
    ensures |acts| <= Rank(w) && Accounted(After(w, acts), orig)
    ensures (forall a | ProgramStep(a) :: !Enabled(After(w, acts), a)) <==> After(w, acts).pc == Serving
    decreases |acts|
  {
    if acts == [] {
      if w.pc != Serving {
        var a := NextStep(w);
        assert ProgramStep(a) && Enabled(w, a);
      }
    } else {
      assert ProgramStep(acts[0]);
      RankDrops(w, acts[0], orig);
      AccountedStep(w, acts[0], orig);
      LeftAloneItServes(Next(w, acts[0]), acts[1..], orig);
    }
  }

  /** The program steps from a world, until the legacy file is retired if it is still there, else to the end. */
  lemma {:induction false} Onward(w: World, orig: seq<Line>, retireOnly: bool) returns (acts: seq<Action>)
    requires Accounted(w, orig) && (retireOnly ==> w.fs.legacy == Some(orig))
    ensures Run(w, acts) && ProgramSteps(acts) && Accounted(After(w, acts), orig)
    ensures After(w, acts).pc == if retireOnly then Unmarking else Serving
    decreases Rank(w)
  {
    if w.pc == Serving {
      acts := [];
    } else {
      var a := NextStep(w);
      RankDrops(w, a, orig);
      AccountedStep(w, a, orig);
      if retireOnly && a == RetireLegacy {
        acts := [a];
        assert acts[1..] == [];
      } else {
        var rest := Onward(Next(w, a), orig, retireOnly);
        acts := [a] + rest;
        assert acts[1..] == rest;
      }
    }
  }

  /** After any number of crashed runs the next run is not refused, and left alone it ends: it can
      always go on until it serves, and takes no more steps than its rank. */
  lemma NextRunGetsThrough(orig: seq<Line>, acts: seq<Action>) returns (run: seq<Action>)
    requires Run(Fresh(orig), acts) && After(Fresh(orig), acts).pc == Down
    requires forall i | 0 <= i < |acts| :: ProgramStep(acts[i]) || acts[i].Crash?
    ensures var w := After(Fresh(orig), acts);
            && Started(w.fs) != Down
            && Run(w, run) && ProgramSteps(run) && After(w, run).pc == Serving
            && forall more | Run(w, more) && ProgramSteps(more) ::
                 && |more| <= Rank(w)
                 && (After(w, more).pc == Serving <==> forall a | ProgramStep(a) :: !Enabled(After(w, more), a))
  {
    AlwaysAccounted(Fresh(orig), acts, orig);
    var w := After(Fresh(orig), acts);
    run := Onward(w, orig, false);
    forall more | Run(w, more) && ProgramSteps(more)
      ensures |more| <= Rank(w)
      ensures After(w, more).pc == Serving <==> forall a | ProgramStep(a) :: !Enabled(After(w, more), a)
    {
      LeftAloneItServes(w, more, orig);
    }
  }

  // ---- the retained copy and the operator ----

  /** The world before step n. */
  function At(w: World, acts: seq<Action>, n: nat): World
    requires Run(w, acts) && n <= |acts|
    decreases n
  {
    if n == 0 then w else At(Next(w, acts[0]), acts[1..], n - 1)
  }

  /** Retiring replaces the copy exactly when a legacy file with other content is there. */
  predicate Replaces(w: World, a: Action, orig: seq<Line>) {
    a.RetireLegacy? && w.fs.legacy.Some? && w.fs.legacy != Some(orig)
  }

  lemma {:induction false} AtStep(w: World, acts: seq<Action>, n: nat)
    requires Run(w, acts) && n < |acts|
    ensures Enabled(At(w, acts, n), acts[n]) && At(w, acts, n + 1) == Next(At(w, acts, n), acts[n])
    decreases n
  {
    if n == 0 {
      assert At(Next(w, acts[0]), acts[1..], 0) == Next(w, acts[0]);
    } else {
      AtStep(Next(w, acts[0]), acts[1..], n - 1);
    }
  }

  lemma {:induction false} KeptUntilReplaced(w: World, acts: seq<Action>, orig: seq<Line>, n: nat)
    requires Run(w, acts) && w.fs.migrated == Some(orig) && n <= |acts|
    requires forall m | 0 <= m < n :: !Replaces(At(w, acts, m), acts[m], orig)
    ensures At(w, acts, n).fs.migrated == Some(orig)
  {
    if n == 0 {
    } else {
      KeptUntilReplaced(w, acts, orig, n - 1);
      AtStep(w, acts, n - 1);
    }
  }

  /** Whatever crashes, runs, operator and writer do, the retained copy stays what it is if and only if
      no run retires a legacy file of other content. */
  lemma CopyIsKeptIff(w: World, acts: seq<Action>, orig: seq<Line>)
    requires Run(w, acts) && w.fs.migrated == Some(orig)
    ensures (forall n | 0 <= n <= |acts| :: At(w, acts, n).fs.migrated == Some(orig))
            <==> (forall n | 0 <= n < |acts| :: !Replaces(At(w, acts, n), acts[n], orig))
  {
    if n :| 0 <= n < |acts| && Replaces(At(w, acts, n), acts[n], orig) {
      AtStep(w, acts, n);
      assert At(w, acts, n + 1).fs.migrated != Some(orig);
    } else {
      forall n | 0 <= n <= |acts| ensures At(w, acts, n).fs.migrated == Some(orig) {
        KeptUntilReplaced(w, acts, orig, n);
      }
    }
  }

  lemma {:induction false} RunAppend(w: World, acts: seq<Action>, more: seq<Action>)
    requires Run(w, acts) && Run(After(w, acts), more)
    ensures Run(w, acts + more) && After(w, acts + more) == After(After(w, acts), more)
    decreases |acts|
  {
    if acts == [] {
      assert acts + more == more;
    } else {
      RunAppend(Next(w, acts[0]), acts[1..], more);
      assert (acts + more)[1..] == acts[1..] + more;
    }
  }

  /** It can be replaced, in a run from the untouched start: the first run crashes between retiring the
      legacy file and removing the marker, the operator puts another legacy file there, and the next
      run resumes and renames that over the copy, unbucketed. */
  lemma ResumeRetiresWhateverIsThere(orig: seq<Line>, other: seq<Line>) returns (acts: seq<Action>)
    ensures Run(Fresh(orig), acts)
    ensures var w := After(Fresh(orig), acts);
            w.pc == Serving && w.fs.migrated == Some(other) && w.fs.legacy == None && w.fs.days == Split(orig)
  {
    acts := Onward(Fresh(orig), orig, true);
    var w := After(Fresh(orig), acts);
    assert w.fs.marker && w.fs.days == Split(orig) && w.fs.staged == map[];
    var tail: seq<Action> := [];
    RunSnoc(w, tail, Crash(map[]));
    tail := tail + [Crash(map[])];
    RunSnoc(w, tail, OperatorPut(other));
    tail := tail + [OperatorPut(other)];
    RunSnoc(w, tail, Start);
    tail := tail + [Start];
    RunSnoc(w, tail, RetireLegacy);
    tail := tail + [RetireLegacy];
    RunSnoc(w, tail, Unmark);
    tail := tail + [Unmark];
    RunSnoc(w, tail, RemoveTmp);
    tail := tail + [RemoveTmp];
    RunAppend(Fresh(orig), acts, tail);
    acts := acts + tail;
  }

  // ---- where each line ends up ----

  /** A character that strip() leaves. */
  predicate Shows(l: Line) {
    exists i :: 0 <= i < |l.body| && l.body[i] as int !in {9, 10, 11, 12, 13, 28, 29, 30, 31, 32}
  }

  /** YYYY-MM-DD, character by character. */
  predicate ReadsAsDay(d: string) {
    && |d| == 10 && d[4] == '-' && d[7] == '-'
    && (forall i | 0 <= i < 10 && i != 4 && i != 7 :: '0' <= d[i] <= '9')
  }

  predicate StampBegins(l: Line, d: string) {
    ReadsAsDay(d) && l.stamp.Some? && d <= l.stamp.value
  }

  lemma ShowsIffNotBlank(l: Line)
    ensures Shows(l) <==> !Blank(l)
  {
  }

  lemma BucketByStamp(l: Line)
    ensures forall d :: BucketOf(l) == OfDay(d) <==> StampBegins(l, d)
    ensures BucketOf(l) == UnknownDate <==> forall d :: !StampBegins(l, d)
  {
    forall d ensures BucketOf(l) == OfDay(d) <==> StampBegins(l, d) {
      if l.stamp.Some? {
        DayReads(d);
        assert StampBegins(l, d) ==> l.stamp.value[..10] == d;
      }
    }
    match BucketOf(l)
    case OfDay(d) => assert StampBegins(l, d);
    case UnknownDate =>
  }

  lemma DayReads(d: string)
    ensures ReadsAsDay(d) <==> IsoTime.IsDayText(d)
  {
  }

  lemma {:induction false} InBucketMembers(lines: seq<Line>, b: Bucket)
    ensures forall x :: x in InBucket(lines, b) <==>
              exists i :: 0 <= i < |lines| && !Blank(lines[i]) && BucketOf(lines[i]) == b && x == Terminated(lines[i])
  {
    if lines == [] {
    } else {
      var front, n := lines[..|lines| - 1], |lines| - 1;
      InBucketMembers(front, b);
      assert forall i | 0 <= i < n :: front[i] == lines[i];
    }
  }

  /** A line of a file after migration: some legacy line, ended by a newline. */
  predicate Copies(x: Line, l: Line) {
    x.body == l.body && x.stamp == l.stamp && x.newline
  }

  /** After any crashes, where a run has got through: a line that shows anything is in the file of the day its
      stamp begins with, an undated one in the unknown-date file; and every file holds only such lines. */
  lemma LinesAreInTheirDay(orig: seq<Line>, acts: seq<Action>)
    requires Run(Fresh(orig), acts) && After(Fresh(orig), acts).pc == Serving
    requires forall i | 0 <= i < |acts| :: ProgramStep(acts[i]) || acts[i].Crash?
    ensures var days := After(Fresh(orig), acts).fs.days;
            && (forall l, d | l in orig && Shows(l) && StampBegins(l, d) ::
                  OfDay(d) in days && l.(newline := true) in days[OfDay(d)])
            && (forall l | l in orig && Shows(l) && (forall d :: !StampBegins(l, d)) ::
                  UnknownDate in days && l.(newline := true) in days[UnknownDate])
            && (forall d, x | OfDay(d) in days && x in days[OfDay(d)] ::
                  StampBegins(x, d) && exists l :: l in orig && Shows(l) && Copies(x, l))
            && (UnknownDate in days ==> forall x | x in days[UnknownDate] ::
                  (forall d :: !StampBegins(x, d)) && exists l :: l in orig && Shows(l) && Copies(x, l))
  {
    MigrationSurvivesCrashes(orig, acts);
    var days := After(Fresh(orig), acts).fs.days;
    forall l | l in orig && Shows(l)
      ensures forall d | StampBegins(l, d) :: OfDay(d) in days && l.(newline := true) in days[OfDay(d)]
      ensures (forall d :: !StampBegins(l, d)) ==> UnknownDate in days && l.(newline := true) in days[UnknownDate]
    {
      LineIsInItsBucket(orig, l);
      BucketByStamp(l);
    }
    forall b, x | b in days && x in days[b]
      ensures exists l :: l in orig && Shows(l) && Copies(x, l)
      ensures forall d :: b == OfDay(d) <==> StampBegins(x, d)
    {
      var l := LineBehind(orig, b, x);
      BucketByStamp(l);
    }
  }

  lemma LineIsInItsBucket(orig: seq<Line>, l: Line)
    requires l in orig && Shows(l)
    ensures l.(newline := true) in InBucket(orig, BucketOf(l))
  {
    ShowsIffNotBlank(l);
    InBucketMembers(orig, BucketOf(l));
    var i :| 0 <= i < |orig| && orig[i] == l;
  }

  lemma LineBehind(orig: seq<Line>, b: Bucket, x: Line) returns (l: Line)
    requires x in InBucket(orig, b)
    ensures l in orig && Shows(l) && Copies(x, l) && BucketOf(l) == b
  {
    InBucketMembers(orig, b);
    var i :| 0 <= i < |orig| && !Blank(orig[i]) && BucketOf(orig[i]) == b && x == Terminated(orig[i]);
    l := orig[i];
    ShowsIffNotBlank(l);
  }

  /** So each logged event is in the file of its own date, fraction or not. */
  lemma EventsAreInTheirDay(orig: seq<Line>, acts: seq<Action>, l: Line, t: IsoTime.DateTime)
    requires Run(Fresh(orig), acts) && After(Fresh(orig), acts).pc == Serving
    requires forall i | 0 <= i < |acts| :: ProgramStep(acts[i]) || acts[i].Crash?
    requires IsoTime.Valid(t) && l in orig && Shows(l) && l.stamp == Some(IsoTime.Iso(t))
    ensures var days := After(Fresh(orig), acts).fs.days;
            OfDay(IsoTime.DayText(t)) in days && l.(newline := true) in days[OfDay(IsoTime.DayText(t))]
  {
    IsoTime.DayPrefix(t);
    DayReads(IsoTime.DayText(t));
    assert StampBegins(l, IsoTime.DayText(t));
    LinesAreInTheirDay(orig, acts);
  }

  // ---- the program itself ----

  datatype Outcome =
    | NothingToDo
    | Refused
    | Finished(resumed: bool, filesMoved: nat, linesTotal: nat, linesUnknown: nat, days: nat)

  /** What a method has done so far, as steps of the state machine. */
  ghost predicate Traced(start: World, acts: seq<Action>, now: World) {
    && Run(start, acts) && After(start, acts) == now
    && forall i | 0 <= i < |acts| :: ProgramStep(acts[i])
  }

  lemma Trace(start: World, acts: seq<Action>, now: World, a: Action)
    requires Traced(start, acts, now) && Enabled(now, a) && ProgramStep(a)
    ensures Traced(start, acts + [a], Next(now, a))
  {
    RunSnoc(start, acts, a);
  }

  lemma MoveOne(days: Files, staged: Files, b: Bucket)
    requires b in staged
    ensures days[b := staged[b]] + (staged - {b}) == days + staged
  {
    assert days.Keys + {b} + (staged.Keys - {b}) == days.Keys + staged.Keys;
  }

  /** The dates with a non-blank line. */
  ghost function DaysOf(lines: seq<Line>): set<Bucket> {
    set l | l in lines && !Blank(l) && BucketOf(l) != UnknownDate :: BucketOf(l)
  }

  lemma {:induction false} DatedBuckets(lines: seq<Line>)
    ensures (set b | b in Split(lines) && b != UnknownDate) == DaysOf(lines)
  {
    if lines == [] {
    } else {
      var front, last := lines[..|lines| - 1], lines[|lines| - 1];
      DatedBuckets(front);
      assert lines == front + [last];
      assert DaysOf(lines) == DaysOf(front) + DaysOf([last]);
      assert Split(lines).Keys == Split(front).Keys + if Blank(last) then {} else {BucketOf(last)};
    }
  }

  class Disk {
    var legacy: Option<seq<Line>>
    var migrated: Option<seq<Line>>
    var days: Files
    var tmpDir: bool
    var staged: Files
    var marker: bool

    ghost function Contents(): Fs
      reads this
    {
      Fs(legacy, migrated, days, tmpDir, staged, marker)
    }

    /** One uninterrupted run.  It always ends, every effect is a step of the state machine above,
        and what it answers depends on what it found. */
    method MigrateMonolith() returns (r: Outcome, ghost acts: seq<Action>)
      modifies this
      ensures Traced(World(old(Contents()), Down), acts, World(Contents(), if r.Refused? then Down else Serving))
      ensures r.NothingToDo? <==> !old(marker) && old(legacy).None?
      ensures r.Refused? <==> !old(marker) && old(legacy).Some? && old(days) != map[]
      ensures !r.Finished? ==> Contents() == old(Contents())
      ensures r.Finished? ==> r.resumed == old(marker)
      ensures r.Finished? && r.resumed ==> days == old(days) + old(staged) && r.filesMoved == |old(staged)|
      ensures r.Finished? && !r.resumed ==>
                && days == Split(old(legacy).value) && r.filesMoved == |days|
                && r.linesTotal == |NonBlank(old(legacy).value)|
                && r.linesUnknown == |InBucket(old(legacy).value, UnknownDate)|
                && r.days == |DaysOf(old(legacy).value)|
      ensures r.Finished? ==>
                && legacy == None && !marker && staged == map[] && !tmpDir
                && migrated == if old(legacy).Some? then old(legacy) else old(migrated)
    {
      ghost var start := World(Contents(), Down);
      var moved;
      acts := [];
      Trace(start, acts, start, Start);
      acts := acts + [Start];
      if marker {
        moved, acts := FinishMigration(start, acts);
        return Finished(true, moved, 0, 0, 0), acts;
      }
      if legacy.None? {
        return NothingToDo, acts;
      }
      if days != map[] {
        return Refused, acts;
      }
      r, acts := MigrateAll(start, acts);
    }

    /** The fresh pass. */
    method MigrateAll(ghost start: World, ghost before: seq<Action>) returns (r: Outcome, ghost acts: seq<Action>)
      requires legacy.Some? && days == map[] && !marker
      requires Traced(start, before, World(Contents(), Wiping))
      modifies this
      ensures Traced(start, acts, World(Contents(), Serving))
      ensures r.Finished? && !r.resumed && days == Split(old(legacy).value) && r.filesMoved == |days|
      ensures r.linesTotal == |NonBlank(old(legacy).value)|
      ensures r.linesUnknown == |InBucket(old(legacy).value, UnknownDate)|
      ensures r.days == |DaysOf(old(legacy).value)|
      ensures legacy == None && !marker && staged == map[] && !tmpDir && migrated == old(legacy)
    {
      var moved, total, unknown;
      total, unknown, acts := Stage(start, before);
      var dated := CountDated();
      moved, acts := FinishMigration(start, acts);
      assert map[] + Split(old(legacy).value) == Split(old(legacy).value);
      return Finished(false, moved, total, unknown, dated), acts;
    }

    /** The bucket handles kept, but for the unknown-date one. */
    method CountDated() returns (n: nat)
      ensures forall lines | staged == Split(lines) :: n == |DaysOf(lines)|
    {
      var dated := set b | b in staged && b != UnknownDate;
      forall lines | staged == Split(lines) ensures |dated| == |DaysOf(lines)| {
        DatedBuckets(lines);
      }
      return |dated|;
    }

    /** Everything up to the marker: wipe what an interrupted run left, bucket every line, seal. */
    method Stage(ghost start: World, ghost before: seq<Action>) returns (total: nat, unknown: nat, ghost acts: seq<Action>)
      requires legacy.Some? && days == map[] && !marker
      requires Traced(start, before, World(Contents(), Wiping))
      modifies this`staged, this`tmpDir, this`marker
      ensures staged == Split(legacy.value) && marker
      ensures total == |NonBlank(legacy.value)| && unknown == |InBucket(legacy.value, UnknownDate)|
      ensures Traced(start, acts, World(Contents(), Moving))
    {
      acts := Wipe(start, before);
      Trace(start, acts, World(Contents(), Wiping), Open);
      acts := acts + [Open];
      tmpDir := true;
      total, unknown, acts := BucketLines(legacy.value, start, acts);
      Trace(start, acts, World(Contents(), Bucketing(legacy.value, [])), Mark);
      acts := acts + [Mark];
      marker := true;
    }

    /** rmtree: the stale staged files go one by one. */
    method Wipe(ghost start: World, ghost before: seq<Action>) returns (ghost acts: seq<Action>)
      requires Traced(start, before, World(Contents(), Wiping))
      modifies this`staged
      ensures staged == map[]
      ensures Traced(start, acts, World(Contents(), Wiping))
    {
      acts := before;
      while staged != map[]
        invariant Traced(start, acts, World(Contents(), Wiping))
        decreases |staged|
      {
        var b :| b in staged;
        Trace(start, acts, World(Contents(), Wiping), WipeFile(b));
        acts := acts + [WipeFile(b)];
        staged := staged - {b};
      }
    }

    /** The bucketing pass over the opened legacy file. */
    method BucketLines(lines: seq<Line>, ghost start: World, ghost before: seq<Action>)
      returns (total: nat, unknown: nat, ghost acts: seq<Action>)
      requires staged == map[]
      requires Traced(start, before, World(Contents(), Bucketing([], lines)))
      modifies this`staged
      ensures staged == Split(lines)
      ensures total == |NonBlank(lines)| && unknown == |InBucket(lines, UnknownDate)|
      ensures Traced(start, acts, World(Contents(), Bucketing(lines, [])))
    {
      acts := before;
      total, unknown := 0, 0;
      var n := 0;
      assert lines[..0] == [] && lines[0..] == lines;
      while n < |lines|
        invariant 0 <= n <= |lines|
        invariant staged == Split(lines[..n])
        invariant Traced(start, acts, World(Contents(), Bucketing(lines[..n], lines[n..])))
        invariant total == |NonBlank(lines[..n])| && unknown == |InBucket(lines[..n], UnknownDate)|
      {
        var l := lines[n];
        assert lines[..n + 1] == lines[..n] + [l] && lines[..n + 1][..n] == lines[..n];
        assert lines[n..][1..] == lines[n + 1..];
        Trace(start, acts, World(Contents(), Bucketing(lines[..n], lines[n..])), BucketLine);
        acts := acts + [BucketLine];
        if !Blank(l) {
          total := total + 1;
          var day := ExtractDay(l);
          if day.None? {
            unknown := unknown + 1;
            Write(UnknownDate, l);
          } else {
            Write(OfDay(day.value), l);
          }
        }
        n := n + 1;
      }
      assert lines[..n] == lines && lines[n..] == [];
    }

    method Write(b: Bucket, l: Line)
      modifies this`staged
      ensures staged == old(staged)[b := (if b in old(staged) then old(staged)[b] else []) + [Terminated(l)]]
    {
      staged := staged[b := (if b in staged then staged[b] else []) + [Terminated(l)]];
    }

    /** The rename phase. */
    method FinishMigration(ghost start: World, ghost before: seq<Action>) returns (moved: nat, ghost acts: seq<Action>)
      requires Traced(start, before, World(Contents(), Moving))
      modifies this
      ensures Traced(start, acts, World(Contents(), Serving))
      ensures days == old(days) + old(staged) && staged == map[] && moved == |old(staged)|
      ensures legacy == None && migrated == if old(legacy).Some? then old(legacy) else old(migrated)
      ensures !marker && !tmpDir
    {
      moved, acts := MoveStaged(start, before);
      Trace(start, acts, World(Contents(), Moving), RetireLegacy);
      acts := acts + [RetireLegacy];
      if legacy.Some? {
        migrated, legacy := legacy, None;
      }
      Trace(start, acts, World(Contents(), Unmarking), Unmark);
      acts := acts + [Unmark];
      marker := false;
      Trace(start, acts, World(Contents(), RemovingTmp), RemoveTmp);
      acts := acts + [RemoveTmp];
      tmpDir := false;
    }

    /** The source renames in name order; any order gives the same result. */
    method MoveStaged(ghost start: World, ghost before: seq<Action>) returns (moved: nat, ghost acts: seq<Action>)
      requires Traced(start, before, World(Contents(), Moving))
      modifies this`days, this`staged
      ensures Traced(start, acts, World(Contents(), Moving))
      ensures days == old(days) + old(staged) && staged == map[] && moved == |old(staged)|
    {
      acts := before;
      moved := 0;
      while staged != map[]
        invariant Traced(start, acts, World(Contents(), Moving))
        invariant days + staged == old(days) + old(staged)
        invariant moved + |staged| == |old(staged)|
        decreases |staged|
      {
        var b :| b in staged;
        Trace(start, acts, World(Contents(), Moving), Move(b));
        acts := acts + [Move(b)];
        MoveOne(days, staged, b);
        OneLess(staged, b);
        days, staged := days[b := staged[b]], staged - {b};
        moved := moved + 1;
      }
      assert days + map[] == days;
    }
  }
}
