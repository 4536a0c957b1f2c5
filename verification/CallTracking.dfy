/** One active-call key of the live state (backend/state.py): expiry, frames and callbacks, and
    its agreement with the batch segmentation of the dossier. */
module CallTracking {
  import opened Prelude
  import opened Events
  import Dossier
  import Seqs

  /** A bare slot, or a slot of a channel. */
  datatype Key = Key(channel: Option<string>, slot: int)

  datatype Call = Call(src: int, tgt: int, startedAt: int, lastFrameAt: int, frames: nat,
                       encrypted: bool, restLsn: Option<int>)

  datatype Callback = Started(call: Call) | Ended(call: Call)

  /** What StateManager holds about one key, and the callbacks it made for it. */
  datatype KeyState = KeyState(active: Option<Call>, callbacks: seq<Callback>)

  datatype Input = Tick(now: int) | Apply(ev: Event)

  const IDLE := KeyState(None, [])

  function Time(x: Input): int {
    match x
    case Tick(now) => now
    case Apply(ev) => When(ev)
  }

  predicate Stale(call: Call, now: int, timeout: int) {
    timeout < now - call.lastFrameAt
  }

  function Expire(st: KeyState, now: int, timeout: int): KeyState {
    if st.active.Some? && Stale(st.active.value, now, timeout)
    then KeyState(None, st.callbacks + [Ended(st.active.value)])
    else st
  }

  function NewCall(at: int, b: Body): Call
    requires b.VoiceCall?
  {
    Call(b.src, b.tgt, at, at, 1, false, b.restLsn)
  }

  function OnVoice(st: KeyState, at: int, b: Body): KeyState
    requires b.VoiceCall?
  {
    if b.src == 0 then st
    else if st.active.Some? && st.active.value.src == b.src && st.active.value.tgt == b.tgt then
      var c := st.active.value;
      st.(active := Some(c.(lastFrameAt := at, frames := c.frames + 1,
                            restLsn := if b.restLsn.Some? then b.restLsn else c.restLsn)))
    else
      var ended := if st.active.Some? then [Ended(st.active.value)] else [];
      KeyState(Some(NewCall(at, b)), st.callbacks + ended + [Started(NewCall(at, b))])
  }

  predicate On(key: Key, e: Event) {
    JsonSlot(e.body) == Some(key.slot) && e.channel == key.channel
  }

  /** Every event first expires idle calls, so a late frame starts a fresh call. */
  function Next(st: KeyState, key: Key, x: Input, timeout: int): KeyState {
    match x
    case Tick(now) => Expire(st, now, timeout)
    case Apply(e) =>
      var live := Expire(st, When(e), timeout);
      if e.body.VoiceCall? && On(key, e) then OnVoice(live, When(e), e.body)
      else if e.body.Encryption? && On(key, e) && live.active.Some?
      then live.(active := Some(live.active.value.(encrypted := true)))
      else live
  }

  function After(key: Key, xs: seq<Input>, timeout: int): KeyState {
    if xs == [] then IDLE else Next(After(key, xs[..|xs| - 1], timeout), key, xs[|xs| - 1], timeout)
  }

  // ---- callbacks alternate ----

  function Starts(cs: seq<Callback>): nat {
    if cs == [] then 0 else Starts(cs[..|cs| - 1]) + if cs[|cs| - 1].Started? then 1 else 0
  }

  function Ends(cs: seq<Callback>): nat {
    if cs == [] then 0 else Ends(cs[..|cs| - 1]) + if cs[|cs| - 1].Ended? then 1 else 0
  }

  /** Starts and ends take turns, and each end is about the call that was started before it. */
  predicate Alternating(st: KeyState) {
    && (forall i | 0 <= i < |st.callbacks| :: st.callbacks[i].Started? <==> i % 2 == 0)
    && (forall i | 0 < i < |st.callbacks| && i % 2 == 1 :: SameKeyup(st.callbacks[i - 1].call, st.callbacks[i].call))
    && (st.active.Some? <==> |st.callbacks| % 2 == 1)
    && (st.active.Some? ==> SameKeyup(st.callbacks[|st.callbacks| - 1].call, st.active.value))
  }

  predicate SameKeyup(a: Call, b: Call) {
    a.src == b.src && a.tgt == b.tgt && a.startedAt == b.startedAt && a.frames <= b.frames
  }

  lemma AlternatingExpire(st: KeyState, now: int, timeout: int)
    requires Alternating(st)
    ensures Alternating(Expire(st, now, timeout))
  {
  }

  lemma AlternatingVoice(st: KeyState, at: int, b: Body)
    requires Alternating(st) && b.VoiceCall?
    ensures Alternating(OnVoice(st, at, b))
  {
    if b.src != 0 && st.active.Some? && !(st.active.value.src == b.src && st.active.value.tgt == b.tgt) {
      var n := |st.callbacks|;
      var cs := OnVoice(st, at, b).callbacks;
      assert |cs| == n + 2 && cs[..n] == st.callbacks;
      assert forall i | 0 <= i < n :: cs[i] == st.callbacks[i];
    }
  }

  /** On any run without a reset, starts and ends alternate for each key. */
  lemma {:induction false} CallbacksAlternate(key: Key, xs: seq<Input>, timeout: int)
    ensures Alternating(After(key, xs, timeout))
  {
    if xs == [] {
    } else {
      var front, x := xs[..|xs| - 1], xs[|xs| - 1];
      CallbacksAlternate(key, front, timeout);
      AlternatingExpire(After(key, front, timeout), Time(x), timeout);
      if x.Apply? && x.ev.body.VoiceCall? {
        AlternatingVoice(Expire(After(key, front, timeout), Time(x), timeout), Time(x), x.ev.body);
      }
    }
  }

  lemma {:induction false} CountTurns(cs: seq<Callback>)
    requires forall i | 0 <= i < |cs| :: cs[i].Started? <==> i % 2 == 0
    ensures Starts(cs) == (|cs| + 1) / 2 && Ends(cs) == |cs| / 2
  {
    if cs == [] {
    } else {
      CountTurns(cs[..|cs| - 1]);
    }
  }

  /** Starts minus ends is one exactly when the key is active, and zero otherwise. */
  lemma BalanceIsActivity(key: Key, xs: seq<Input>, timeout: int)
    ensures var st := After(key, xs, timeout);
            Starts(st.callbacks) - Ends(st.callbacks) == if st.active.Some? then 1 else 0
  {
    CallbacksAlternate(key, xs, timeout);
    CountTurns(After(key, xs, timeout).callbacks);
  }

  // ---- what the live call says ----

  /** Two keys do not interfere: an event of another channel or slot only expires. */
  lemma OtherKeysOnlyExpire(st: KeyState, key: Key, e: Event, timeout: int)
    requires e.channel != key.channel || JsonSlot(e.body) != Some(key.slot)
    ensures Next(st, key, Apply(e), timeout) == Expire(st, When(e), timeout)
  {
  }

  predicate IsVoice(key: Key, x: Input) {
    x.Apply? && x.ev.body.VoiceCall? && x.ev.channel == key.channel && x.ev.body.slot == key.slot && x.ev.body.src != 0
  }

  predicate IsEncryption(key: Key, x: Input) {
    x.Apply? && x.ev.body.Encryption? && x.ev.channel == key.channel && x.ev.body.slot == key.slot
  }

  predicate IsOf(b: Body, src: int, tgt: int) {
    b.VoiceCall? && b.src == src && b.tgt == tgt
  }

  function VoicesOn(key: Key, xs: seq<Input>): seq<Body> {
    if xs == [] then []
    else VoicesOn(key, xs[..|xs| - 1]) + if IsVoice(key, xs[|xs| - 1]) then [xs[|xs| - 1].ev.body] else []
  }

  /** The last rest channel that a frame told. */
  function LastRest(bodies: seq<Body>): Option<int> {
    if bodies == [] then None
    else
      var b := bodies[|bodies| - 1];
      if b.VoiceCall? && b.restLsn.Some? then b.restLsn else LastRest(bodies[..|bodies| - 1])
  }

  predicate Encrypts(key: Key, xs: seq<Input>) {
    exists j :: 0 <= j < |xs| && IsEncryption(key, xs[j])
  }

  /** The live call in terms of the inputs since the frame that started it. */
  predicate CallTells(c: Call, key: Key, since: seq<Input>) {
    var voices := VoicesOn(key, since);
    && since != [] && IsVoice(key, since[0]) && c.startedAt == Time(since[0])
    && c.frames == |voices|
    && (forall i | 0 <= i < |voices| :: IsOf(voices[i], c.src, c.tgt))
    && c.restLsn == LastRest(voices)
    && (c.encrypted <==> Encrypts(key, since))
    && (exists j :: 0 <= j < |since| && IsVoice(key, since[j]) && c.lastFrameAt == Time(since[j])
                    && forall k | j < k < |since| :: !IsVoice(key, since[k]))
  }

  lemma VoicesSnoc(key: Key, since: seq<Input>, x: Input)
    ensures VoicesOn(key, since + [x]) == VoicesOn(key, since) + if IsVoice(key, x) then [x.ev.body] else []
    ensures Encrypts(key, since + [x]) <==> Encrypts(key, since) || IsEncryption(key, x)
  {
    var longer := since + [x];
    assert longer[..|since|] == since && longer[|since|] == x;
    if Encrypts(key, since) {
      var j :| 0 <= j < |since| && IsEncryption(key, since[j]);
      assert longer[j] == since[j];
    }
  }

  lemma CallTellsAtStart(key: Key, x: Input)
    requires IsVoice(key, x)
    ensures CallTells(NewCall(Time(x), x.ev.body), key, [x])
  {
    OneVoice(key, x);
    RestOfOne(x.ev.body);
    assert [x][0] == x;
  }

  lemma OneVoice(key: Key, x: Input)
    requires IsVoice(key, x)
    ensures VoicesOn(key, [x]) == [x.ev.body] && !Encrypts(key, [x])
  {
    assert [x][..|[x]| - 1] == [];
  }

  lemma RestOfOne(b: Body)
    requires b.VoiceCall?
    ensures LastRest([b]) == b.restLsn
  {
    assert [b][..|[b]| - 1] == [];
  }

  /** One more input on a call that goes on. */
  lemma CallGoesOn(st: KeyState, key: Key, since: seq<Input>, x: Input, timeout: int)
    requires st.active.Some? && CallTells(st.active.value, key, since)
    requires var live := Expire(st, Time(x), timeout);
             live.active.Some? && (IsVoice(key, x) ==> IsOf(x.ev.body, live.active.value.src, live.active.value.tgt))
    ensures var next := Next(st, key, x, timeout);
            next.active.Some? && CallTells(next.active.value, key, since + [x])
  {
    if IsVoice(key, x) {
      CallTellsAfterFrame(st.active.value, key, since, x);
    } else {
      CallTellsStill(st.active.value, key, since, x);
    }
  }

  /** A call after an input was live before it and goes on, or the input started it. */
  lemma LiveOrStarted(st: KeyState, key: Key, x: Input, timeout: int)
    requires Next(st, key, x, timeout).active.Some?
    ensures var live := Expire(st, Time(x), timeout);
            if live.active.Some? && (IsVoice(key, x) ==> IsOf(x.ev.body, live.active.value.src, live.active.value.tgt))
            then st.active.Some?
            else IsVoice(key, x) && Next(st, key, x, timeout).active == Some(NewCall(Time(x), x.ev.body))
  {
  }

  lemma CallTellsAfterFrame(c: Call, key: Key, since: seq<Input>, x: Input)
    requires CallTells(c, key, since) && IsVoice(key, x)
    requires IsOf(x.ev.body, c.src, c.tgt)
    ensures CallTells(c.(lastFrameAt := Time(x), frames := c.frames + 1,
                         restLsn := if x.ev.body.restLsn.Some? then x.ev.body.restLsn else c.restLsn), key, since + [x])
  {
    VoicesSnoc(key, since, x);
    var voices := VoicesOn(key, since);
    assert (voices + [x.ev.body])[..|voices|] == voices;
    assert (since + [x])[|since|] == x;
  }

  lemma CallTellsStill(c: Call, key: Key, since: seq<Input>, x: Input)
    requires CallTells(c, key, since) && !IsVoice(key, x)
    ensures CallTells(if IsEncryption(key, x) then c.(encrypted := true) else c, key, since + [x])
  {
    VoicesSnoc(key, since, x);
    Seqs.Empty(VoicesOn(key, since));
    var j :| 0 <= j < |since| && IsVoice(key, since[j]) && c.lastFrameAt == Time(since[j])
             && forall k | j < k < |since| :: !IsVoice(key, since[k]);
    assert (since + [x])[j] == since[j];
    assert forall k | j < k < |since| :: (since + [x])[k] == since[k];
  }

  /** In any run the live call of a key is its inputs since the frame that started it: frames of one radio to
      one target, their number and last time, the last rest channel told, and encrypted iff an encryption
      event of the key came since. */
  lemma {:induction false} LiveCallTellsItsStory(key: Key, xs: seq<Input>, timeout: int) returns (i: nat)
    requires After(key, xs, timeout).active.Some?
    ensures i < |xs| && CallTells(After(key, xs, timeout).active.value, key, xs[i..])
    decreases |xs|
  {
    var front, n := xs[..|xs| - 1], |xs| - 1;
    var x, st := xs[n], After(key, front, timeout);
    var live := Expire(st, Time(x), timeout);
    LiveOrStarted(st, key, x, timeout);
    if live.active.Some? && (IsVoice(key, x) ==> IsOf(x.ev.body, live.active.value.src, live.active.value.tgt)) {
      i := LiveCallTellsItsStory(key, front, timeout);
      assert xs[i..] == front[i..] + [x];
      CallGoesOn(st, key, front[i..], x, timeout);
    } else {
      i := n;
      assert xs[n..] == [x];
      CallTellsAtStart(key, x);
    }
  }

  // ---- online and batch agree ----

  function SessionOf(slot: int, c: Call): Dossier.Session {
    Dossier.Session(c.startedAt, c.lastFrameAt, slot, c.src, c.tgt, c.frames)
  }

  /** The calls the live state finished, with their final frame counts. */
  function Finished(slot: int, cs: seq<Callback>): seq<Dossier.Session> {
    if cs == [] then []
    else Finished(slot, cs[..|cs| - 1]) +
         if cs[|cs| - 1].Ended? then [SessionOf(slot, cs[|cs| - 1].call)] else []
  }

  function Calls(slot: int, st: KeyState): seq<Dossier.Session> {
    Finished(slot, st.callbacks) + if st.active.Some? then [SessionOf(slot, st.active.value)] else []
  }

  predicate IsFrame(slot: int, x: Input) {
    x.Apply? && x.ev.body.VoiceCall? && x.ev.body.slot == slot && x.ev.body.src != 0
  }

  function FrameOf(x: Input): Dossier.Frame
    requires x.Apply? && x.ev.body.VoiceCall?
  {
    Dossier.Frame(Some(When(x.ev)), x.ev.body.slot, x.ev.body.src, x.ev.body.tgt)
  }

  /** The slot's voice rows with the src = 0 placeholders removed. */
  function Frames(slot: int, xs: seq<Input>): seq<Dossier.Frame> {
    if xs == [] then []
    else Frames(slot, xs[..|xs| - 1]) + if IsFrame(slot, xs[|xs| - 1]) then [FrameOf(xs[|xs| - 1])] else []
  }

  /** Events come in time order, and no tick is later than an event that follows it. */
  predicate TimeOrdered(xs: seq<Input>) {
    forall i, j | 0 <= i < j < |xs| && xs[j].Apply? :: Time(xs[i]) <= Time(xs[j])
  }

  predicate Untagged(xs: seq<Input>) {
    forall i | 0 <= i < |xs| && xs[i].Apply? :: xs[i].ev.channel == None
  }

  /** The last frame of the slot, -1 when there is none. */
  function LastFrame(slot: int, xs: seq<Input>): (p: int)
    ensures -1 <= p < |xs| && (p >= 0 ==> IsFrame(slot, xs[p]))
    ensures forall k | p < k < |xs| :: !IsFrame(slot, xs[k])
  {
    if xs == [] then -1
    else if IsFrame(slot, xs[|xs| - 1]) then |xs| - 1
    else LastFrame(slot, xs[..|xs| - 1])
  }

  /** Some input between positions p and n is too late for the call of frame p to live on. */
  predicate Overdue(xs: seq<Input>, p: nat, n: nat)
    requires p < n <= |xs|
  {
    exists k :: p < k < n && Dossier.CALL_GAP < Time(xs[k]) - Time(xs[p])
  }

  /** Frames i and j follow each other and belong to one session of the dossier, but an input between
      them was already more than the gap later than frame i. */
  predicate CutShort(slot: int, xs: seq<Input>, i: int, j: int) {
    && 0 <= i < j < |xs| && IsFrame(slot, xs[i]) && IsFrame(slot, xs[j])
    && (forall k | i < k < j :: !IsFrame(slot, xs[k]))
    && xs[i].ev.body.src == xs[j].ev.body.src && xs[i].ev.body.tgt == xs[j].ev.body.tgt
    && Time(xs[j]) - Time(xs[i]) <= Dossier.CALL_GAP
    && Overdue(xs, i, j)
  }

  function Cuts(slot: int, xs: seq<Input>): nat {
    if xs == [] then 0
    else Cuts(slot, xs[..|xs| - 1]) +
         if CutShort(slot, xs, LastFrame(slot, xs[..|xs| - 1]), |xs| - 1) then 1 else 0
  }

  lemma {:induction false} CutsCountPairs(slot: int, xs: seq<Input>)
    ensures Cuts(slot, xs) == 0 <==> forall i, j :: !CutShort(slot, xs, i, j)
  {
    if xs == [] {
    } else {
      var front, n := xs[..|xs| - 1], |xs| - 1;
      CutsCountPairs(slot, front);
      forall i, j | j < n ensures CutShort(slot, xs, i, j) <==> CutShort(slot, front, i, j) {
        CutShortInFront(slot, xs, i, j);
      }
      forall i | CutShort(slot, xs, i, n) ensures i == LastFrame(slot, front) {
        assert front[i] == xs[i];
      }
    }
  }

  lemma CutShortInFront(slot: int, xs: seq<Input>, i: int, j: int)
    requires xs != [] && j < |xs| - 1
    ensures CutShort(slot, xs, i, j) <==> CutShort(slot, xs[..|xs| - 1], i, j)
  {
    var front := xs[..|xs| - 1];
    if 0 <= i < j {
      assert front[i] == xs[i] && front[j] == xs[j];
      assert forall k | i < k < j :: front[k] == xs[k];
    }
  }

  /** Where the two segmentations stand: the open session is that of the last frame, the live call is
      too unless an input was overdue, the live state is ahead by the cuts, and without cuts both agree. */
  predicate Tracks(slot: int, st: KeyState, g: Dossier.Grouping, xs: seq<Input>) {
    var p, finished := LastFrame(slot, xs), Finished(slot, st.callbacks);
    if p < 0 then st.active == None && finished == [] && g == Dossier.Grouping([], None) && Cuts(slot, xs) == 0
    else
      && OpenSession(slot, g, xs[p])
      && (st.active.Some? <==> !Overdue(xs, p, |xs|))
      && (st.active.Some? ==> LiveCall(st.active.value, xs[p]))
      && |Calls(slot, st)| == |Dossier.Flush(g)| + Cuts(slot, xs)
      && (Cuts(slot, xs) == 0 ==> Agree(slot, st, g))
  }

  predicate OpenSession(slot: int, g: Dossier.Grouping, x: Input) {
    && IsFrame(slot, x) && g.current.Some? && g.current.value.slot == slot
    && g.current.value.src == x.ev.body.src && g.current.value.tgt == x.ev.body.tgt && g.current.value.last == Time(x)
  }

  predicate LiveCall(c: Call, x: Input) {
    x.Apply? && x.ev.body.VoiceCall? && c.src == x.ev.body.src && c.tgt == x.ev.body.tgt && c.lastFrameAt == Time(x)
  }

  predicate Agree(slot: int, st: KeyState, g: Dossier.Grouping) {
    && g.current.Some?
    && if st.active.Some? then Finished(slot, st.callbacks) == g.closed && SessionOf(slot, st.active.value) == g.current.value
       else Finished(slot, st.callbacks) == g.closed + [g.current.value]
  }

  lemma FinishedSnoc(slot: int, cs: seq<Callback>, c: Callback)
    ensures Finished(slot, cs + [c]) == Finished(slot, cs) + if c.Ended? then [SessionOf(slot, c.call)] else []
  {
    assert (cs + [c])[..|cs|] == cs;
  }

  /** Expiry only moves the live call to the finished ones. */
  lemma ExpireKeepsCalls(slot: int, st: KeyState, now: int)
    ensures Calls(slot, Expire(st, now, Dossier.CALL_GAP)) == Calls(slot, st)
  {
    if st.active.Some? {
      FinishedSnoc(slot, st.callbacks, Ended(st.active.value));
      Seqs.Empty(Finished(slot, st.callbacks + [Ended(st.active.value)]));
    }
  }

  /** A frame lengthens the live call or adds a call to those there were. */
  lemma VoiceAddsCall(slot: int, st: KeyState, x: Input)
    requires IsFrame(slot, x)
    ensures var st' := OnVoice(st, Time(x), x.ev.body);
            && st'.active.Some? && LiveCall(st'.active.value, x)
            && if st.active.Some? && st.active.value.src == x.ev.body.src && st.active.value.tgt == x.ev.body.tgt
               then st'.callbacks == st.callbacks
                    && SessionOf(slot, st'.active.value)
                       == SessionOf(slot, st.active.value).(last := Time(x), frames := st.active.value.frames + 1)
               else Finished(slot, st'.callbacks) == Calls(slot, st)
                    && SessionOf(slot, st'.active.value) == Dossier.Opened(FrameOf(x))
  {
    var call := NewCall(Time(x), x.ev.body);
    if st.active.Some? {
      FinishedSnoc(slot, st.callbacks, Ended(st.active.value));
      FinishedSnoc(slot, st.callbacks + [Ended(st.active.value)], Started(call));
      Seqs.Empty(Finished(slot, st.callbacks + [Ended(st.active.value)]));
    } else {
      Seqs.Empty(st.callbacks);
      FinishedSnoc(slot, st.callbacks, Started(call));
      Seqs.Empty(Finished(slot, st.callbacks));
    }
  }

  lemma OverdueSnoc(slot: int, xs: seq<Input>, x: Input)
    ensures var p := LastFrame(slot, xs);
            p >= 0 ==> (Overdue(xs + [x], p, |xs| + 1)
                        <==> Overdue(xs, p, |xs|) || Dossier.CALL_GAP < Time(x) - Time(xs[p]))
    ensures LastFrame(slot, xs + [x]) == if IsFrame(slot, x) then |xs| else LastFrame(slot, xs)
  {
    var longer, p := xs + [x], LastFrame(slot, xs);
    assert longer[..|xs|] == xs;
    if p >= 0 {
      assert forall k | p <= k < |xs| :: longer[k] == xs[k];
      assert longer[|xs|] == x;
      if Overdue(xs, p, |xs|) {
        var k :| p < k < |xs| && Dossier.CALL_GAP < Time(xs[k]) - Time(xs[p]);
        assert Dossier.CALL_GAP < Time(longer[k]) - Time(longer[p]);
      }
    }
  }

  lemma CutsSnoc(slot: int, xs: seq<Input>, x: Input)
    ensures var p := LastFrame(slot, xs);
            Cuts(slot, xs + [x]) == Cuts(slot, xs) +
              if && p >= 0 && IsFrame(slot, x) && xs[p].ev.body.src == x.ev.body.src && xs[p].ev.body.tgt == x.ev.body.tgt
                 && Time(x) - Time(xs[p]) <= Dossier.CALL_GAP && Overdue(xs, p, |xs|)
              then 1 else 0
  {
    var longer, p := xs + [x], LastFrame(slot, xs);
    assert longer[..|xs|] == xs;
    if p >= 0 {
      assert forall k | p <= k < |xs| :: longer[k] == xs[k];
      assert Overdue(longer, p, |xs|) <==> Overdue(xs, p, |xs|);
    }
  }

  /** An input that is no frame of the slot. */
  lemma TracksOther(slot: int, st: KeyState, g: Dossier.Grouping, xs: seq<Input>, x: Input)
    requires Tracks(slot, st, g, xs) && !IsFrame(slot, x) && (x.Apply? ==> x.ev.channel == None)
    ensures Tracks(slot, Next(st, Key(None, slot), x, Dossier.CALL_GAP), g, xs + [x])
  {
    ExpireKeepsCalls(slot, st, Time(x));
    OverdueSnoc(slot, xs, x);
    CutsSnoc(slot, xs, x);
    if st.active.Some? {
      FinishedSnoc(slot, st.callbacks, Ended(st.active.value));
    }
  }

  predicate Continues(g: Dossier.Grouping, x: Input)
    requires x.Apply? && x.ev.body.VoiceCall?
  {
    && g.current.Some? && Dossier.SameCall(g.current.value, FrameOf(x))
    && Time(x) - g.current.value.last <= Dossier.CALL_GAP
  }

  lemma StepOpens(slot: int, g: Dossier.Grouping, x: Input)
    requires IsFrame(slot, x) && (g.current.None? ==> g.closed == [])
    ensures var h := Dossier.Step(g, FrameOf(x));
            && OpenSession(slot, h, x)
            && if Continues(g, x)
               then h.closed == g.closed
                    && h.current.value == g.current.value.(last := Time(x), frames := g.current.value.frames + 1)
               else h.closed == Dossier.Flush(g) && h.current.value == Dossier.Opened(FrameOf(x))
  {
    Seqs.Empty(g.closed);
  }

  /** What Tracks says of a frame about to come, for the state after expiry. */
  predicate Ready(slot: int, live: KeyState, g: Dossier.Grouping, x: Input, before: nat, cuts: nat)
    requires IsFrame(slot, x)
  {
    && (g.current.None? ==> g.closed == [] && live.active.None? && Finished(slot, live.callbacks) == [])
    && |Calls(slot, live)| == |Dossier.Flush(g)| + before
    && (live.active.Some? ==> g.current.Some? && g.current.value.src == live.active.value.src
                              && g.current.value.tgt == live.active.value.tgt && g.current.value.slot == slot
                              && Time(x) - g.current.value.last <= Dossier.CALL_GAP)
    && (before == 0 && g.current.Some? ==> Agree(slot, live, g))
    && cuts == before + if Continues(g, x) && live.active.None? then 1 else 0
  }

  lemma ReadyForFrame(slot: int, st: KeyState, g: Dossier.Grouping, xs: seq<Input>, x: Input)
    requires Tracks(slot, st, g, xs) && IsFrame(slot, x)
    ensures Ready(slot, Expire(st, Time(x), Dossier.CALL_GAP), g, x, Cuts(slot, xs), Cuts(slot, xs + [x]))
  {
    ExpireKeepsCalls(slot, st, Time(x));
    CutsSnoc(slot, xs, x);
    Seqs.Empty(g.closed);
    if st.active.Some? {
      FinishedSnoc(slot, st.callbacks, Ended(st.active.value));
    }
  }

  lemma ReadyFrame(slot: int, live: KeyState, g: Dossier.Grouping, x: Input, before: nat, cuts: nat)
    requires IsFrame(slot, x) && Ready(slot, live, g, x, before, cuts)
    ensures var st', h := OnVoice(live, Time(x), x.ev.body), Dossier.Step(g, FrameOf(x));
            && st'.active.Some? && LiveCall(st'.active.value, x) && OpenSession(slot, h, x)
            && |Calls(slot, st')| == |Dossier.Flush(h)| + cuts
            && (cuts == 0 ==> Agree(slot, st', h))
  {
    VoiceAddsCall(slot, live, x);
    StepOpens(slot, g, x);
    Seqs.Empty(Finished(slot, live.callbacks));
  }

  /** A frame: live state and dossier both go on, both begin anew, or only the live state does. */
  lemma TracksFrame(slot: int, st: KeyState, g: Dossier.Grouping, xs: seq<Input>, x: Input)
    requires Tracks(slot, st, g, xs) && IsFrame(slot, x) && x.ev.channel == None
    ensures Tracks(slot, Next(st, Key(None, slot), x, Dossier.CALL_GAP), Dossier.Step(g, FrameOf(x)), xs + [x])
  {
    ReadyForFrame(slot, st, g, xs, x);
    ReadyFrame(slot, Expire(st, Time(x), Dossier.CALL_GAP), g, x, Cuts(slot, xs), Cuts(slot, xs + [x]));
    LastIsFrame(slot, xs, x);
  }

  lemma LastIsFrame(slot: int, xs: seq<Input>, x: Input)
    requires IsFrame(slot, x)
    ensures LastFrame(slot, xs + [x]) == |xs| && (xs + [x])[|xs|] == x && !Overdue(xs + [x], |xs|, |xs| + 1)
  {
  }

  lemma {:induction false} SegmentationsTrack(slot: int, xs: seq<Input>)
    requires Untagged(xs)
    ensures Tracks(slot, After(Key(None, slot), xs, Dossier.CALL_GAP), Dossier.Group(Frames(slot, xs)), xs)
  {
    if xs == [] {
    } else {
      var front, x := xs[..|xs| - 1], xs[|xs| - 1];
      var st, g := After(Key(None, slot), front, Dossier.CALL_GAP), Dossier.Group(Frames(slot, front));
      assert xs == front + [x];
      SegmentationsTrack(slot, front);
      if IsFrame(slot, x) {
        TracksFrame(slot, st, g, front, x);
      } else {
        TracksOther(slot, st, g, front, x);
      }
      Snoc(slot, front, x);
    }
  }

  /** For one slot of a single-channel stream, in any order of time and with other events and ticks
      interleaved: the live state makes one call more than the dossier has sessions for each pair of
      frames it cuts, and the two agree, final frame counts included, if and only if it cuts none. */
  lemma OnlineAgreesWithBatchIff(slot: int, xs: seq<Input>)
    requires Untagged(xs)
    ensures var calls := Calls(slot, After(Key(None, slot), xs, Dossier.CALL_GAP));
            var sessions := Dossier.Flush(Dossier.Group(Frames(slot, xs)));
            && |calls| == |sessions| + Cuts(slot, xs)
            && (calls == sessions <==> forall i, j :: !CutShort(slot, xs, i, j))
  {
    SegmentationsTrack(slot, xs);
    CutsCountPairs(slot, xs);
    Seqs.Empty(Finished(slot, After(Key(None, slot), xs, Dossier.CALL_GAP).callbacks));
  }

  /** In time order, with no tick later than an event that follows it, no call is ever cut. */
  lemma OnlineAgreesWithBatch(slot: int, xs: seq<Input>)
    requires TimeOrdered(xs) && Untagged(xs)
    ensures Calls(slot, After(Key(None, slot), xs, Dossier.CALL_GAP))
            == Dossier.Flush(Dossier.Group(Frames(slot, xs)))
  {
    OnlineAgreesWithBatchIff(slot, xs);
  }

  /** A call cut in two: a tick three seconds after a frame, handled before the frame one second after it. */
  lemma LateTickSplitsCall(slot: int, first: Event, second: Event)
    requires first.body.VoiceCall? && first.body.slot == slot && first.body.src != 0 && first.channel == None
    requires second == first.(at := second.at) && When(second) == When(first) + 1_000_000
    ensures var xs := [Apply(first), Tick(When(first) + 3_000_000), Apply(second)];
            && |Calls(slot, After(Key(None, slot), xs, Dossier.CALL_GAP))| == 2
            && |Dossier.Flush(Dossier.Group(Frames(slot, xs)))| == 1
  {
    var x1, x2, x3 := Apply(first), Tick(When(first) + 3_000_000), Apply(second);
    var c1, c2 := NewCall(When(first), first.body), NewCall(When(second), second.body);
    var none: seq<Input> := [];
    Snoc(slot, none, x1);
    Snoc(slot, none + [x1], x2);
    Snoc(slot, none + [x1] + [x2], x3);
    Seqs.Three(x1, x2, x3);
    var quiet: seq<Callback> := [];
    var started := quiet + [] + [Started(c1)];
    var ended := started + [Ended(c1)];
    FinishedSnoc(slot, quiet + [], Started(c1));
    FinishedSnoc(slot, started, Ended(c1));
    FinishedSnoc(slot, ended + [], Started(c2));
    Seqs.Empty(ended);
    var st1 := After(Key(None, slot), none + [x1], Dossier.CALL_GAP);
    assert st1 == KeyState(Some(c1), started);
    var st2 := After(Key(None, slot), none + [x1] + [x2], Dossier.CALL_GAP);
    assert st2 == KeyState(None, ended);
    assert Expire(st2, Time(x3), Dossier.CALL_GAP) == st2;
  }

  /** One more input, for the live state and for the dossier. */
  lemma Snoc(slot: int, xs: seq<Input>, x: Input)
    ensures After(Key(None, slot), xs + [x], Dossier.CALL_GAP)
            == Next(After(Key(None, slot), xs, Dossier.CALL_GAP), Key(None, slot), x, Dossier.CALL_GAP)
    ensures Dossier.Group(Frames(slot, xs + [x]))
            == if IsFrame(slot, x) then Dossier.Step(Dossier.Group(Frames(slot, xs)), FrameOf(x))
               else Dossier.Group(Frames(slot, xs))
  {
    assert (xs + [x])[..|xs|] == xs;
    Seqs.Empty(Frames(slot, xs));
    if IsFrame(slot, x) {
      assert (Frames(slot, xs) + [FrameOf(x)])[..|Frames(slot, xs)|] == Frames(slot, xs);
    }
  }
}
