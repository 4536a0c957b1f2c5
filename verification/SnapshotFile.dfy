/** Atomic writes with a backup, and the load that falls back to it (backend/state.py).
    A write may be cut short after any of its file steps, by a crash or by an error; the
    temporary file has a name of its own and is never read. */
module SnapshotFile {
  import opened Prelude

  /** Where a write ends early. */
  datatype Stop = Never | BeforeWrite | BeforeSync | BeforeBackup | BeforeSwap | AfterSwap

  /** One call of atomic_write_text; an error while making the backup is swallowed.  `left` is what the
      crash leaves in a file that was not synced. */
  datatype Write = Write(content: string, backupFails: bool, stop: Stop, left: string)

  datatype File = File(text: string, synced: bool)

  /** snapshot.json and snapshot.json.bak */
  datatype Disk = Disk(main: Option<string>, bak: Option<string>)

  function Wrote(d: Disk, w: Write): Disk {
    if w.stop.BeforeWrite? || w.stop.BeforeSync? || w.stop.BeforeBackup? then d
    else
      var backed := if d.main.Some? && !w.backupFails then Disk(None, d.main) else d;
      if w.stop.BeforeSwap? then backed else backed.(main := Some(w.content))
  }

  function After(ws: seq<Write>): Disk {
    if ws == [] then Disk(None, None) else Wrote(After(ws[..|ws| - 1]), ws[|ws| - 1])
  }

  /** A candidate is passed over when it is missing, empty or does not parse. */
  predicate Usable(valid: string -> bool, file: Option<string>) {
    file.Some? && file.value != "" && valid(file.value)
  }

  function Text(f: Option<File>): Option<string> {
    if f.Some? then Some(f.value.text) else None
  }

  /** A crash: whatever was not synced may be torn. */
  function Torn(f: Option<File>, left: string): Option<File> {
    if f.Some? && !f.value.synced then Some(File(left, false)) else f
  }

  class Snapshot {
    var temp: Option<File>
    var main: Option<File>
    var bak: Option<File>

    constructor ()
      ensures Durable() && State() == Disk(None, None)
    {
      temp, main, bak := None, None, None;
    }

    ghost function State(): Disk
      reads this
    {
      Disk(Text(main), Text(bak))
    }

    /** Both files that a load reads are synced, so no crash can tear them. */
    ghost predicate Durable()
      reads this
    {
      (main.Some? ==> main.value.synced) && (bak.Some? ==> bak.value.synced)
    }

    method Crash(left: string)
      modifies this
      ensures temp == Torn(old(temp), left) && main == Torn(old(main), left) && bak == Torn(old(bak), left)
    {
      temp, main, bak := Torn(temp, left), Torn(main, left), Torn(bak, left);
    }

    /** Wherever the write is cut short, the crash tears neither of the two files. */
    method AtomicWriteText(w: Write) returns (completed: bool)
      requires Durable()
      modifies this
      ensures Durable() && State() == Wrote(old(State()), w)
      ensures completed <==> w.stop == Never
      ensures completed ==> Text(main) == Some(w.content)
    {
      completed := false;
      temp := Some(File("", false));
      if w.stop == BeforeWrite {
        Crash(w.left);
        return;
      }
      temp := Some(File(w.content, false));
      if w.stop == BeforeSync {
        Crash(w.left);
        return;
      }
      temp := Some(temp.value.(synced := true));
      if w.stop == BeforeBackup {
        Crash(w.left);
        return;
      }
      if main.Some? {
        if !w.backupFails {
          bak, main := main, None;
        }
      }
      if w.stop == BeforeSwap {
        Crash(w.left);
        return;
      }
      main, temp := temp, None;
      if w.stop == AfterSwap {
        Crash(w.left);
        return;
      }
      completed := true;
    }

    /** The first usable file of the two. */
    method LoadSnapshot(valid: string -> bool) returns (r: Option<string>)
      ensures r == Loaded(valid, State())
    {
      var candidates := [Text(main), Text(bak)];
      for n := 0 to 2
        invariant forall i | 0 <= i < n :: !Usable(valid, candidates[i])
      {
        assert candidates[0] == Text(main) && candidates[1] == Text(bak);
        if Usable(valid, candidates[n]) {
          return candidates[n];
        }
      }
      assert !Usable(valid, candidates[0]) && !Usable(valid, candidates[1]);
      return None;
    }
  }

  function Loaded(valid: string -> bool, d: Disk): Option<string> {
    if Usable(valid, d.main) then d.main else if Usable(valid, d.bak) then d.bak else None
  }

  /** The write whose swap happened last. */
  predicate LandedAt(ws: seq<Write>, j: nat) {
    && j < |ws| && (ws[j].stop.Never? || ws[j].stop.AfterSwap?)
    && forall k | j < k < |ws| :: !ws[k].stop.Never? && !ws[k].stop.AfterSwap?
  }

  predicate NoneLanded(ws: seq<Write>) {
    forall k | 0 <= k < |ws| :: !ws[k].stop.Never? && !ws[k].stop.AfterSwap?
  }

  lemma {:induction false} LastLandedIsKept(ws: seq<Write>)
    ensures NoneLanded(ws) ==> After(ws) == Disk(None, None)
    ensures forall j: nat | LandedAt(ws, j) ::
              var d := After(ws);
              d.main == Some(ws[j].content) || (d.main == None && d.bak == Some(ws[j].content))
  {
    if ws == [] {
    } else {
      var front, w := ws[..|ws| - 1], ws[|ws| - 1];
      LastLandedIsKept(front);
      if !w.stop.Never? && !w.stop.AfterSwap? {
        assert NoneLanded(ws) ==> NoneLanded(front);
        forall j: nat | LandedAt(ws, j) ensures LandedAt(front, j) && front[j] == ws[j] {
        }
      } else {
        assert forall j: nat | LandedAt(ws, j) :: j == |ws| - 1;
      }
    }
  }

  /** What the backup is for: after a write got through, the content it replaced is the backup, and
      a damaged main file is read as that content.  A swallowed backup error breaks this exactly
      when there was a main file to back up and the older backup held something else. */
  lemma BackupHoldsPrevious(valid: string -> bool, ws: seq<Write>, w: Write, j: nat, damaged: string)
    requires LandedAt(ws, j) && ws[j].content != "" && valid(ws[j].content)
    requires w.stop == Never && !valid(damaged)
    ensures Loaded(valid, After(ws + [w]).(main := Some(damaged))) == Some(ws[j].content)
            <==> !w.backupFails || After(ws).main.None? || After(ws).bak == After(ws).main
  {
    assert (ws + [w])[..|ws|] == ws;
    LastLandedIsKept(ws);
  }

  /** Over any sequence of writes, each cut short anywhere: once one has completed, the load
      recovers what that write, or a later interrupted one, had written in full. */
  lemma LoadRecoversLastWrite(valid: string -> bool, ws: seq<Write>, done: nat) returns (j: nat)
    requires done < |ws| && ws[done].stop == Never
    requires forall i | 0 <= i < |ws| :: ws[i].content != "" && valid(ws[i].content)
    ensures done <= j < |ws| && (j == done || ws[j].stop == AfterSwap || ws[j].stop == Never)
    ensures Loaded(valid, After(ws)) == Some(ws[j].content)
    ensures forall k | j < k < |ws| :: ws[k].stop != Never
  {
    j := |ws| - 1;
    while !(ws[j].stop == Never || ws[j].stop == AfterSwap)
      invariant done <= j < |ws|
      invariant forall k | j < k < |ws| :: !ws[k].stop.Never? && !ws[k].stop.AfterSwap?
      decreases j
    {
      j := j - 1;
    }
    LastLandedIsKept(ws);
    assert LandedAt(ws, j);
  }
}
