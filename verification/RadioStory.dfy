/** What a radio's entry in the live table says, over whole runs: which of the events since the entry
    was made each of its fields stands for (backend/state.py). */
module RadioStory {
  import opened Prelude
  import opened Events
  import opened CallTracking
  import opened LiveState
  import Seqs

  /** A step on the table: a radio is touched, or the marks of an event are made, `live` being what the
      event's call key held. */
  datatype Move = Touch(id: int, at: int, channel: Option<string>) | Mark(ev: Event, live: KeyState)

  ghost predicate MovesTo(before: Table, after: Table, m: Move, cap: nat) {
    match m
    case Touch(id, at, channel) => TouchedOne(before, after, id, at, channel, cap)
    case Mark(ev, live) => after == before.(radios := Marked(before.radios, ev, live))
  }

  ghost predicate Chain(ts: seq<Table>, ms: seq<Move>, cap: nat) {
    |ts| == |ms| + 1 && forall n | 0 <= n < |ms| :: MovesTo(ts[n], ts[n + 1], ms[n], cap)
  }

  // ---- what the fields stand for ----

  predicate IsFrameBy(m: Move, id: int) {
    m.Mark? && m.ev.body.VoiceCall? && JsonSrc(m.ev.body) == Some(id) && id != 0
  }

  predicate IsMappingOf(m: Move, id: int) {
    m.Mark? && m.ev.body.IpMapping? && JsonRadioId(m.ev.body) == Some(id)
  }

  /** An encryption event on a live call of the radio. */
  predicate Scrambles(m: Move, id: int) {
    m.Mark? && m.ev.body.Encryption? && m.live.active.Some? && m.live.active.value.src == id
  }

  /** A frame of the radio that its live call does not continue. */
  predicate OpensCall(m: Move, id: int) {
    IsFrameBy(m, id) && !(m.live.active.Some? && m.live.active.value.src == id
                          && JsonTgt(m.ev.body) == Some(m.live.active.value.tgt))
  }

  function FramesBy(ms: seq<Move>, id: int): seq<Event> {
    if ms == [] then []
    else FramesBy(ms[..|ms| - 1], id) + if IsFrameBy(ms[|ms| - 1], id) then [ms[|ms| - 1].ev] else []
  }

  function MappingsOf(ms: seq<Move>, id: int): seq<Event> {
    if ms == [] then []
    else MappingsOf(ms[..|ms| - 1], id) + if IsMappingOf(ms[|ms| - 1], id) then [ms[|ms| - 1].ev] else []
  }

  function TouchesOf(ms: seq<Move>, id: int): seq<Move> {
    if ms == [] then []
    else TouchesOf(ms[..|ms| - 1], id) +
         if ms[|ms| - 1].Touch? && ms[|ms| - 1].id == id then [ms[|ms| - 1]] else []
  }

  /** The channel of the last touch that had one. */
  function LastChannel(touches: seq<Move>): Option<string> {
    if touches == [] then None
    else
      var m := touches[|touches| - 1];
      if m.Touch? && m.channel.Some? then m.channel else LastChannel(touches[..|touches| - 1])
  }

  /** Scrambled, and no call opened since. */
  predicate Scrambled(ms: seq<Move>, id: int) {
    exists j :: 0 <= j < |ms| && Scrambles(ms[j], id) && forall k | j < k < |ms| :: !OpensCall(ms[k], id)
  }

  predicate IsLatest(touches: seq<Move>, at: int) {
    && (exists i :: 0 <= i < |touches| && touches[i].Touch? && touches[i].at == at)
    && (forall i | 0 <= i < |touches| && touches[i].Touch? :: touches[i].at <= at)
  }

  ghost predicate Tells(r: Radio, ms: seq<Move>, id: int) {
    var frames, mappings, touches := FramesBy(ms, id), MappingsOf(ms, id), TouchesOf(ms, id);
    && r.id == id && r.voiceFrames == |frames|
    && (frames == [] ==> r.lastTg == None && r.lastSlot == None)
    && (frames != [] ==> var b := frames[|frames| - 1].body; r.lastTg == JsonTgt(b) && r.lastSlot == JsonSlot(b))
    && (mappings == [] ==> r.ip == None)
    && (mappings != [] ==> var b := mappings[|mappings| - 1].body; b.IpMapping? && r.ip == Some(b.ip))
    && (r.lastCallEncrypted <==> Scrambled(ms, id))
    && touches != [] && touches[0].Touch? && r.firstSeen == touches[0].at
    && IsLatest(touches, r.lastSeen) && r.lastChannel == LastChannel(touches)
  }

  // ---- one step ----

  lemma OtherTouch(before: Table, after: Table, other: int, at: int, channel: Option<string>, cap: nat, id: int)
    requires TouchedOne(before, after, other, at, channel, cap) && other != id
    ensures id in after.radios ==> id in before.radios && after.radios[id] == before.radios[id]
  {
  }

  lemma OwnTouch(before: Table, after: Table, id: int, at: int, channel: Option<string>, cap: nat)
    requires TouchedOne(before, after, id, at, channel, cap) && id in after.radios
    ensures after.radios[id] == Heard(if id in before.radios then before.radios[id] else NewRadio(id, at), at, channel)
  {
  }

  lemma Snocs(ms: seq<Move>, m: Move, id: int)
    ensures FramesBy(ms + [m], id) == FramesBy(ms, id) + if IsFrameBy(m, id) then [m.ev] else []
    ensures MappingsOf(ms + [m], id) == MappingsOf(ms, id) + if IsMappingOf(m, id) then [m.ev] else []
    ensures TouchesOf(ms + [m], id) == TouchesOf(ms, id) + if m.Touch? && m.id == id then [m] else []
  {
    assert (ms + [m])[..|ms|] == ms;
  }

  lemma ScrambledSnoc(ms: seq<Move>, m: Move, id: int)
    ensures Scrambled(ms + [m], id) <==> Scrambles(m, id) || (Scrambled(ms, id) && !OpensCall(m, id))
  {
    var longer := ms + [m];
    assert longer[|ms|] == m && forall k | 0 <= k < |ms| :: longer[k] == ms[k];
    if Scrambles(m, id) {
      assert Scrambles(longer[|ms|], id);
    } else if Scrambled(ms, id) && !OpensCall(m, id) {
      var j :| 0 <= j < |ms| && Scrambles(ms[j], id) && forall k | j < k < |ms| :: !OpensCall(ms[k], id);
      assert Scrambles(longer[j], id);
    }
  }

  /** A touch of the radio, known or new. */
  lemma TellsAfterTouch(r: Radio, ms: seq<Move>, id: int, at: int, channel: Option<string>)
    requires Tells(r, ms, id)
    ensures Tells(Heard(r, at, channel), ms + [Touch(id, at, channel)], id)
  {
    var m := Touch(id, at, channel);
    Snocs(ms, m, id);
    ScrambledSnoc(ms, m, id);
    Seqs.Empty(FramesBy(ms, id));
    Seqs.Empty(MappingsOf(ms, id));
    LatestSnoc(TouchesOf(ms, id), r.lastSeen, m);
  }

  lemma LatestSnoc(touches: seq<Move>, latest: int, m: Move)
    requires IsLatest(touches, latest) && m.Touch?
    ensures IsLatest(touches + [m], Max(latest, m.at))
    ensures LastChannel(touches + [m]) == if m.channel.Some? then m.channel else LastChannel(touches)
    ensures (touches + [m])[0] == touches[0]
  {
    var longer := touches + [m];
    assert longer[..|touches|] == touches && longer[|touches|] == m;
    var i :| 0 <= i < |touches| && touches[i].Touch? && touches[i].at == latest;
    assert longer[i] == touches[i];
  }

  lemma TellsAtFirst(id: int, at: int, channel: Option<string>)
    ensures Tells(Heard(NewRadio(id, at), at, channel), [Touch(id, at, channel)], id)
  {
    var m := Touch(id, at, channel);
    OneTouchTraces(m, id);
    assert IsLatest([m], at) by {
      assert [m][0].at == at;
    }
  }

  lemma OneTouchTraces(m: Move, id: int)
    requires m.Touch? && m.id == id
    ensures FramesBy([m], id) == [] && MappingsOf([m], id) == [] && TouchesOf([m], id) == [m]
    ensures LastChannel([m]) == m.channel && !Scrambled([m], id)
  {
    assert [m][..0] == [];
  }

  /** A step that is no touch of the radio and makes no mark on it. */
  lemma TellsStill(r: Radio, ms: seq<Move>, id: int, m: Move)
    requires Tells(r, ms, id)
    requires !IsFrameBy(m, id) && !IsMappingOf(m, id) && !(m.Touch? && m.id == id) && !Scrambles(m, id)
    ensures Tells(r, ms + [m], id)
  {
    Snocs(ms, m, id);
    ScrambledSnoc(ms, m, id);
    Seqs.Empty(FramesBy(ms, id));
    Seqs.Empty(MappingsOf(ms, id));
    Seqs.Empty(TouchesOf(ms, id));
  }

  lemma TellsAfterFrame(r: Radio, r': Radio, ms: seq<Move>, id: int, m: Move)
    requires Tells(r, ms, id) && IsFrameBy(m, id)
    requires r' == r.(voiceFrames := r.voiceFrames + 1, lastTg := JsonTgt(m.ev.body), lastSlot := JsonSlot(m.ev.body),
                      lastCallEncrypted := r.lastCallEncrypted && !OpensCall(m, id))
    ensures Tells(r', ms + [m], id)
  {
    Snocs(ms, m, id);
    ScrambledSnoc(ms, m, id);
    Seqs.Empty(MappingsOf(ms, id));
    Seqs.Empty(TouchesOf(ms, id));
  }

  lemma TellsAfterMapping(r: Radio, r': Radio, ms: seq<Move>, id: int, m: Move)
    requires Tells(r, ms, id) && IsMappingOf(m, id) && r' == r.(ip := Some(m.ev.body.ip))
    ensures Tells(r', ms + [m], id)
  {
    Snocs(ms, m, id);
    ScrambledSnoc(ms, m, id);
    Seqs.Empty(FramesBy(ms, id));
    Seqs.Empty(TouchesOf(ms, id));
  }

  lemma TellsAfterScramble(r: Radio, r': Radio, ms: seq<Move>, id: int, m: Move)
    requires Tells(r, ms, id) && Scrambles(m, id) && r' == r.(lastCallEncrypted := true)
    ensures Tells(r', ms + [m], id)
  {
    Snocs(ms, m, id);
    ScrambledSnoc(ms, m, id);
    Seqs.Empty(FramesBy(ms, id));
    Seqs.Empty(MappingsOf(ms, id));
    Seqs.Empty(TouchesOf(ms, id));
  }

  lemma TellsAfterMark(radios: map<int, Radio>, ms: seq<Move>, id: int, m: Move)
    requires m.Mark? && id in radios && Tells(radios[id], ms, id)
    ensures id in Marked(radios, m.ev, m.live) && Tells(Marked(radios, m.ev, m.live)[id], ms + [m], id)
  {
    var r' := Marked(radios, m.ev, m.live)[id];
    if IsFrameBy(m, id) {
      TellsAfterFrame(radios[id], r', ms, id, m);
    } else if IsMappingOf(m, id) {
      TellsAfterMapping(radios[id], r', ms, id, m);
    } else if Scrambles(m, id) {
      TellsAfterScramble(radios[id], r', ms, id, m);
    } else {
      TellsStill(radios[id], ms, id, m);
    }
  }

  lemma TellsAfterMove(before: Table, after: Table, m: Move, cap: nat, ms: seq<Move>, id: int)
    requires MovesTo(before, after, m, cap) && id in after.radios
    requires if id in before.radios then Tells(before.radios[id], ms, id) else ms == []
    ensures Tells(after.radios[id], ms + [m], id)
  {
    match m
    case Touch(other, at, channel) =>
      if other == id {
        OwnTouch(before, after, id, at, channel, cap);
        if id in before.radios {
          TellsAfterTouch(before.radios[id], ms, id, at, channel);
        } else {
          TellsAtFirst(id, at, channel);
          Seqs.Empty([m]);
        }
      } else {
        OtherTouch(before, after, other, at, channel, cap, id);
        TellsStill(before.radios[id], ms, id, m);
      }
    case Mark(ev, live) =>
      MarksKeepKeys(before.radios, ev, live);
      TellsAfterMark(before.radios, ms, id, m);
  }

  /** For a radio that has been in the table ever since its entry was made: voice frames, talkgroup, slot and IP
      are those of its frames and mappings since then, first and last seen and channel those of its touches,
      and the flag says whether an encryption event met a live call of its own after its last new call. */
  lemma {:induction false} RadioTellsItsStory(ts: seq<Table>, ms: seq<Move>, cap: nat, id: int)
    requires Chain(ts, ms, cap) && ms != [] && id !in ts[0].radios
    requires forall n | 0 < n < |ts| :: id in ts[n].radios
    ensures Tells(ts[|ms|].radios[id], ms, id)
    decreases |ms|
  {
    var front, m := ms[..|ms| - 1], ms[|ms| - 1];
    assert ms == front + [m];
    if front == [] {
      TellsAfterMove(ts[0], ts[1], m, cap, [], id);
    } else {
      assert Chain(ts[..|ms|], front, cap);
      RadioTellsItsStory(ts[..|ms|], front, cap, id);
      TellsAfterMove(ts[|ms| - 1], ts[|ms|], m, cap, front, id);
    }
  }

  // ---- runs of the state manager are such chains ----

  function Touches(ids: seq<int>, at: int, channel: Option<string>): seq<Move> {
    if ids == [] then [] else [Touch(ids[0], at, channel)] + Touches(ids[1..], at, channel)
  }

  /** The steps of an input: the radios it touches, then its marks; a tick has none. */
  function MovesOf(x: Input, live: KeyState): seq<Move> {
    match x
    case Tick(_) => []
    case Apply(ev) => Touches(Touched(ev.body), When(ev), ev.channel) + [Mark(ev, live)]
  }

  /** What the input's call key holds after idle calls have gone. */
  function LiveAt(xs: seq<Input>, x: Input, timeout: int): KeyState {
    match x
    case Tick(_) => IDLE
    case Apply(ev) => Expire(After(KeyOf(ev), xs, timeout), When(ev), timeout)
  }

  function AllMoves(xs: seq<Input>, timeout: int): seq<Move> {
    if xs == [] then []
    else
      var front, x := xs[..|xs| - 1], xs[|xs| - 1];
      AllMoves(front, timeout) + MovesOf(x, LiveAt(front, x, timeout))
  }

  /** What StateManager.Apply and Tick promise of the table. */
  ghost predicate Handles(before: Table, after: Table, x: Input, live: KeyState, cap: nat) {
    match x
    case Tick(_) => after == before
    case Apply(ev) => exists touched ::
      && TouchedAll(before, after.(radios := touched), Touched(ev.body), When(ev), ev.channel, cap)
      && after.radios == Marked(touched, ev, live)
  }

  /** The tables before, between and after the inputs of a run. */
  ghost predicate HandlesAll(tables: seq<Table>, xs: seq<Input>, timeout: int, cap: nat) {
    |tables| == |xs| + 1
    && forall n | 0 <= n < |xs| :: Handles(tables[n], tables[n + 1], xs[n], LiveAt(xs[..n], xs[n], timeout), cap)
  }

  lemma ChainJoin(ts: seq<Table>, ms: seq<Move>, us: seq<Table>, ns: seq<Move>, cap: nat)
    requires Chain(ts, ms, cap) && Chain(us, ns, cap) && ts[|ms|] == us[0]
    ensures Chain(ts + us[1..], ms + ns, cap) && (ts + us[1..])[0] == ts[0]
    ensures (ts + us[1..])[|ms + ns|] == us[|ns|]
  {
    var all, moves := ts + us[1..], ms + ns;
    assert forall n | 0 <= n <= |ns| :: all[|ms| + n] == us[n];
    forall n | 0 <= n < |moves| ensures MovesTo(all[n], all[n + 1], moves[n], cap) {
      if n < |ms| {
        assert MovesTo(ts[n], ts[n + 1], ms[n], cap);
      } else {
        assert MovesTo(us[n - |ms|], us[n - |ms| + 1], ns[n - |ms|], cap);
      }
    }
  }

  lemma ChainCons(before: Table, m: Move, ts: seq<Table>, ms: seq<Move>, cap: nat)
    requires Chain(ts, ms, cap) && MovesTo(before, ts[0], m, cap)
    ensures Chain([before] + ts, [m] + ms, cap) && ([before] + ts)[|ms| + 1] == ts[|ms|]
  {
    forall n | 0 <= n < |[m] + ms| ensures MovesTo(([before] + ts)[n], ([before] + ts)[n + 1], ([m] + ms)[n], cap) {
      if n > 0 {
        assert MovesTo(ts[n - 1], ts[n], ms[n - 1], cap);
      }
    }
  }

  lemma {:induction false} TouchesAreChain(before: Table, after: Table, ids: seq<int>, at: int, channel: Option<string>, cap: nat)
    returns (ts: seq<Table>)
    requires TouchedAll(before, after, ids, at, channel, cap)
    ensures Chain(ts, Touches(ids, at, channel), cap) && ts[0] == before && ts[|ts| - 1] == after
    decreases |ids|
  {
    if ids == [] {
      ts := [before];
    } else {
      var mid :| TouchedOne(before, mid, ids[0], at, channel, cap) && TouchedAll(mid, after, ids[1..], at, channel, cap);
      var rest := TouchesAreChain(mid, after, ids[1..], at, channel, cap);
      ChainCons(before, Touch(ids[0], at, channel), rest, Touches(ids[1..], at, channel), cap);
      ts := [before] + rest;
    }
  }

  lemma InputIsChain(before: Table, after: Table, x: Input, live: KeyState, cap: nat) returns (ts: seq<Table>)
    requires Handles(before, after, x, live, cap)
    ensures Chain(ts, MovesOf(x, live), cap) && ts[0] == before && ts[|ts| - 1] == after
  {
    match x
    case Tick(_) => ts := [before];
    case Apply(ev) =>
      var touched :| TouchedAll(before, after.(radios := touched), Touched(ev.body), When(ev), ev.channel, cap)
                     && after.radios == Marked(touched, ev, live);
      var mid := after.(radios := touched);
      var front := TouchesAreChain(before, mid, Touched(ev.body), When(ev), ev.channel, cap);
      assert Chain([mid, after], [Mark(ev, live)], cap);
      ChainJoin(front, Touches(Touched(ev.body), When(ev), ev.channel), [mid, after], [Mark(ev, live)], cap);
      ts := front + [mid, after][1..];
  }

  /** Any run of events and ticks is a chain of its moves. */
  lemma {:induction false} RunIsChain(tables: seq<Table>, xs: seq<Input>, timeout: int, cap: nat) returns (ts: seq<Table>)
    requires HandlesAll(tables, xs, timeout, cap)
    ensures Chain(ts, AllMoves(xs, timeout), cap) && ts[0] == tables[0] && ts[|ts| - 1] == tables[|xs|]
    decreases |xs|
  {
    if xs == [] {
      ts := tables;
    } else {
      var front, n := xs[..|xs| - 1], |xs| - 1;
      HandlesFront(tables, xs, timeout, cap);
      var before := RunIsChain(tables[..|xs|], front, timeout, cap);
      var live := LiveAt(front, xs[n], timeout);
      var last := InputIsChain(tables[n], tables[n + 1], xs[n], live, cap);
      ChainJoin(before, AllMoves(front, timeout), last, MovesOf(xs[n], live), cap);
      ts := before + last[1..];
    }
  }

  lemma HandlesFront(tables: seq<Table>, xs: seq<Input>, timeout: int, cap: nat)
    requires HandlesAll(tables, xs, timeout, cap) && xs != []
    ensures HandlesAll(tables[..|xs|], xs[..|xs| - 1], timeout, cap)
    ensures var n := |xs| - 1; Handles(tables[n], tables[n + 1], xs[n], LiveAt(xs[..n], xs[n], timeout), cap)
  {
    var front, n := xs[..|xs| - 1], |xs| - 1;
    forall k | 0 <= k < n
      ensures Handles(tables[..|xs|][k], tables[..|xs|][k + 1], front[k], LiveAt(front[..k], front[k], timeout), cap)
    {
      assert front[..k] == xs[..k];
    }
  }

  /** The state manager fed with any events and ticks. */
  method Replay(manager: StateManager, xs: seq<Input>) returns (ghost tables: seq<Table>)
    requires manager.Valid() && forall k :: manager.Of(k) == IDLE
    modifies manager
    ensures manager.Valid() && forall k :: manager.Of(k) == After(k, xs, manager.idleTimeout)
    ensures HandlesAll(tables, xs, manager.idleTimeout, manager.maxRadios)
    ensures tables[0] == old(manager.Radios()) && tables[|xs|] == manager.Radios()
  {
    tables := [manager.Radios()];
    Seqs.Whole(xs);
    for n := 0 to |xs|
      invariant manager.Valid() && forall k :: manager.Of(k) == After(k, xs[..n], manager.idleTimeout)
      invariant HandlesAll(tables, xs[..n], manager.idleTimeout, manager.maxRadios)
      invariant tables[0] == old(manager.Radios()) && tables[n] == manager.Radios()
    {
      Seqs.TakeSnoc(xs, n);
      ghost var before := tables;
      Feed(manager, xs[..n], xs[n]);
      tables := tables + [manager.Radios()];
      HandlesSnoc(before, xs[..n], manager.Radios(), xs[n], manager.idleTimeout, manager.maxRadios);
    }
  }

  method Feed(manager: StateManager, ghost xs: seq<Input>, x: Input)
    requires manager.Valid() && forall k :: manager.Of(k) == After(k, xs, manager.idleTimeout)
    modifies manager
    ensures manager.Valid() && forall k :: manager.Of(k) == After(k, xs + [x], manager.idleTimeout)
    ensures Handles(old(manager.Radios()), manager.Radios(), x, LiveAt(xs, x, manager.idleTimeout), manager.maxRadios)
  {
    assert (xs + [x])[..|xs|] == xs;
    match x
    case Tick(now) =>
      manager.Tick(now);
    case Apply(ev) =>
      ghost var touched := manager.Apply(ev);
      assert manager.Radios().(radios := touched) == Table(touched, manager.evictedTotal, manager.created);
  }

  lemma HandlesSnoc(tables: seq<Table>, xs: seq<Input>, t: Table, x: Input, timeout: int, cap: nat)
    requires HandlesAll(tables, xs, timeout, cap) && Handles(tables[|xs|], t, x, LiveAt(xs, x, timeout), cap)
    ensures HandlesAll(tables + [t], xs + [x], timeout, cap)
  {
    var longer, all := tables + [t], xs + [x];
    forall n | 0 <= n < |all| ensures Handles(longer[n], longer[n + 1], all[n], LiveAt(all[..n], all[n], timeout), cap) {
      assert all[..n] == xs[..n];
      assert xs[..|xs|] == xs;
    }
  }

  /** Which radios an event touches: its source, unless that is a frame's placeholder; the radio of a mapping;
      and the target of a preamble addressed to one radio, or of a location request. */
  lemma TouchedAreNamed(b: Body, id: int)
    ensures id in Touched(b) <==>
              || (JsonSrc(b) == Some(id) && !(TypeName(b) == "voice_call" && id == 0))
              || JsonRadioId(b) == Some(id)
              || (JsonTgt(b) == Some(id) && (TypeName(b) == "lrrp_request"
                                             || (TypeName(b) == "preamble_csbk" && JsonAddressing(b) == Some("Individual"))))
  {
  }
}
