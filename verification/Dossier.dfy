/** Batch segmentation of voice frames into calls (backend/dossier.py). */
module Dossier {
  import opened Prelude
  import Seqs

  const CALL_GAP := 2_000_000   // microseconds

  /** A voice_call row; `at` is None when the timestamp cannot be parsed. */
  datatype Frame = Frame(at: Option<int>, slot: int, src: int, tgt: int)

  datatype Session = Session(start: int, last: int, slot: int, src: int, tgt: int, frames: nat)

  predicate SameCall(s: Session, f: Frame) {
    s.slot == f.slot && s.src == f.src && s.tgt == f.tgt
  }

  function Opened(f: Frame): Session
    requires f.at.Some?
  {
    Session(f.at.value, f.at.value, f.slot, f.src, f.tgt, 1)
  }

  /** Sessions closed so far and the one still open. */
  datatype Grouping = Grouping(closed: seq<Session>, current: Option<Session>)

  function Step(g: Grouping, f: Frame): Grouping {
    if f.at.None? then g
    else if g.current.None? then g.(current := Some(Opened(f)))
    else
      var s := g.current.value;
      if SameCall(s, f) && f.at.value - s.last <= CALL_GAP
      then g.(current := Some(s.(last := f.at.value, frames := s.frames + 1)))
      else Grouping(g.closed + [s], Some(Opened(f)))
  }

  function Group(rows: seq<Frame>): Grouping {
    if rows == [] then Grouping([], None) else Step(Group(rows[..|rows| - 1]), rows[|rows| - 1])
  }

  function Flush(g: Grouping): seq<Session> {
    g.closed + if g.current.Some? then [g.current.value] else []
  }

  method GroupCalls(rows: seq<Frame>) returns (sessions: seq<Session>)
    ensures sessions == Flush(Group(rows))
  {
    sessions := [];
    var current: Option<Session> := None;
    Seqs.Whole(rows);
    for n := 0 to |rows|
      invariant Grouping(sessions, current) == Group(rows[..n])
    {
      Seqs.TakeSnoc(rows, n);
      var row := rows[n];
      if row.at.None? {
        continue;
      }
      if current.Some? && SameCall(current.value, row) && row.at.value - current.value.last <= CALL_GAP {
        current := Some(current.value.(last := row.at.value, frames := current.value.frames + 1));
      } else {
        if current.Some? {
          sessions := sessions + [current.value];
        }
        current := Some(Opened(row));
      }
    }
    if current.Some? {
      sessions := sessions + [current.value];
    } else {
      Seqs.Empty(sessions);
    }
  }

  // ---- what the sessions are ----

  /** The frames with a readable timestamp, which are the ones that count. */
  function Readable(rows: seq<Frame>): seq<Frame> {
    if rows == [] then []
    else Readable(rows[..|rows| - 1]) + if rows[|rows| - 1].at.Some? then [rows[|rows| - 1]] else []
  }

  /** A maximal run: one call, gaps within the limit, bounds and count those of its frames. */
  predicate Covers(s: Session, frames: seq<Frame>) {
    && frames != [] && s.frames == |frames|
    && (forall i | 0 <= i < |frames| :: SameCall(s, frames[i]) && frames[i].at.Some?)
    && s.start == frames[0].at.value && s.last == frames[|frames| - 1].at.value
    && (forall i | 0 < i < |frames| :: frames[i].at.value - frames[i - 1].at.value <= CALL_GAP)
  }

  /** Neighbouring runs could not have been one. */
  predicate Apart(a: Session, b: Session) {
    a.slot != b.slot || a.src != b.src || a.tgt != b.tgt || CALL_GAP < b.start - a.last
  }

  function Concat(runs: seq<seq<Frame>>): seq<Frame> {
    if runs == [] then [] else Concat(runs[..|runs| - 1]) + runs[|runs| - 1]
  }

  /** The runs cut the frames, in order and without remainder, into the maximal runs of the sessions. */
  ghost predicate Cut(frames: seq<Frame>, sessions: seq<Session>, runs: seq<seq<Frame>>) {
    && Concat(runs) == frames && |runs| == |sessions|
    && (forall i | 0 <= i < |runs| :: Covers(sessions[i], runs[i]))
    && (forall i | 0 < i < |runs| :: Apart(sessions[i - 1], sessions[i]))
  }

  lemma Lengthen(frames: seq<Frame>, closed: seq<Session>, s: Session, runs: seq<seq<Frame>>, f: Frame)
    returns (longer: seq<seq<Frame>>)
    requires Cut(frames, closed + [s], runs)
    requires f.at.Some? && SameCall(s, f) && f.at.value - s.last <= CALL_GAP
    ensures Cut(frames + [f], closed + [s.(last := f.at.value, frames := s.frames + 1)], longer)
  {
    var n := |closed|;
    var s' := s.(last := f.at.value, frames := s.frames + 1);
    assert (closed + [s])[n] == s && Covers(s, runs[n]);
    longer := runs[..n] + [runs[n] + [f]];
    assert longer[..n] == runs[..n];
    Seqs.Assoc(Concat(runs[..n]), runs[n], [f]);
    assert Covers(s', longer[n]);
    forall i | 0 <= i < n ensures Covers(closed[i], runs[i]) {
      assert (closed + [s])[i] == closed[i];
    }
    forall i | 0 < i <= n ensures Apart(closed[i - 1], (closed + [s'])[i]) {
      assert Apart((closed + [s])[i - 1], (closed + [s])[i]);
    }
  }

  lemma AddRun(frames: seq<Frame>, sessions: seq<Session>, runs: seq<seq<Frame>>, f: Frame)
    requires Cut(frames, sessions, runs) && f.at.Some?
    requires sessions != [] ==> Apart(sessions[|sessions| - 1], Opened(f))
    ensures Cut(frames + [f], sessions + [Opened(f)], runs + [[f]])
  {
    assert (runs + [[f]])[..|runs|] == runs;
    assert Covers(Opened(f), [f]);
  }

  lemma {:induction false} NothingClosedWithoutOpen(rows: seq<Frame>)
    ensures Group(rows).current.None? ==> Group(rows).closed == []
  {
    if rows == [] {
    } else {
      NothingClosedWithoutOpen(rows[..|rows| - 1]);
    }
  }

  /** Every list of rows is cut into maximal runs by its sessions. */
  lemma {:induction false} SessionsAreMaximalRuns(rows: seq<Frame>) returns (runs: seq<seq<Frame>>)
    ensures Cut(Readable(rows), Flush(Group(rows)), runs)
  {
    if rows == [] {
      runs := [];
    } else {
      var front, f := rows[..|rows| - 1], rows[|rows| - 1];
      runs := SessionsAreMaximalRuns(front);
      Seqs.Empty(Readable(front));
      if f.at.Some? {
        NothingClosedWithoutOpen(front);
        runs := CutOneMore(Readable(front), Group(front), runs, f);
      }
    }
  }

  lemma CutOneMore(frames: seq<Frame>, g: Grouping, runs: seq<seq<Frame>>, f: Frame) returns (more: seq<seq<Frame>>)
    requires Cut(frames, Flush(g), runs) && f.at.Some?
    requires g.current.None? ==> g.closed == []
    ensures Cut(frames + [f], Flush(Step(g, f)), more)
  {
    if g.current.Some? && SameCall(g.current.value, f) && f.at.value - g.current.value.last <= CALL_GAP {
      more := Lengthen(frames, g.closed, g.current.value, runs, f);
    } else {
      AddRun(frames, Flush(g), runs, f);
      more := runs + [[f]];
      Seqs.Empty(g.closed);
    }
  }
}
