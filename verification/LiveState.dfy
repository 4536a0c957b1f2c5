/** The live dashboard state (backend/state.py): a capped table of radios and the active calls,
    updated in place by every event and tick. */
module LiveState {
  import opened Prelude
  import opened Events
  import opened CallTracking
  import Seqs

  datatype Radio = Radio(
    id: int, firstSeen: int, lastSeen: int,
    ip: Option<string>, voiceFrames: nat,
    lastTg: Option<int>, lastSlot: Option<int>,
    lastCallEncrypted: bool, lastChannel: Option<string>)

  /** How many radios one eviction removes when the table has just outgrown its cap. */
  function Batch(cap: nat): nat {
    if 1 < cap / 20 then cap / 20 else 1
  }

  ghost predicate KeysMatch(radios: map<int, Radio>) {
    forall id | id in radios :: radios[id].id == id
  }

  /** `after` is `before` without `n` of its oldest radios: no survivor was heard of earlier
      than a removed one. */
  ghost predicate EvictedOldest(before: map<int, Radio>, after: map<int, Radio>, n: nat) {
    && after.Keys <= before.Keys
    && (forall id | id in after :: after[id] == before[id])
    && |after| + n == |before|
    && (forall gone, kept | gone in before && gone !in after && kept in after ::
          before[gone].lastSeen <= after[kept].lastSeen)
  }

  function NewRadio(id: int, at: int): Radio {
    Radio(id, at, at, None, 0, None, None, false, None)
  }

  /** A radio heard at a time and, when the event has one, on a channel. */
  function Heard(r: Radio, at: int, channel: Option<string>): Radio {
    r.(lastSeen := Max(r.lastSeen, at), lastChannel := if channel.Some? then channel else r.lastChannel)
  }

  /** Fields set on a radio; one that was evicted as soon as it was touched keeps nothing. */
  function Set(radios: map<int, Radio>, id: int, change: Radio -> Radio): map<int, Radio> {
    if id in radios then radios[id := change(radios[id])] else radios
  }

  /** The table after a new radio came in: it is there, or the table was full and the oldest
      radios, perhaps the newcomer among them, made room for it and for some that follow. */
  ghost predicate Created(before: map<int, Radio>, after: map<int, Radio>, id: int, at: int, cap: nat) {
    && after.Keys <= before.Keys + {id}
    && (forall r | r in after && r != id :: after[r] == before[r])
    && (id in after ==> after[id] == NewRadio(id, at))
    && |after| == SizeNext(cap, Min(|before|, cap))
    && (forall gone, kept | gone in before && gone !in after && kept in after ::
          before[gone].lastSeen <= after[kept].lastSeen)
    && (id !in after ==> forall kept | kept in after :: at <= after[kept].lastSeen)
    && (|before| < cap ==> after == before[id := NewRadio(id, at)])
  }

  lemma MadeRoom(before: map<int, Radio>, grown: map<int, Radio>, after: map<int, Radio>, id: int, at: int, cap: nat)
    requires id !in before && |before| == cap
    requires grown == before[id := NewRadio(id, at)] && |grown| == cap + 1
    requires EvictedOldest(grown, after, Min(Max(1, Batch(cap)), cap + 1))
    ensures Created(before, after, id, at, cap)
  {
    OlderMadeRoom(before, grown, after, id, at);
    assert after.Keys <= grown.Keys == before.Keys + {id};
    assert forall r | r in after && r != id :: after[r] == grown[r] == before[r];
  }

  lemma OlderMadeRoom(before: map<int, Radio>, grown: map<int, Radio>, after: map<int, Radio>, id: int, at: int)
    requires id !in before && grown == before[id := NewRadio(id, at)]
    requires forall gone, kept | gone in grown && gone !in after && kept in after ::
               grown[gone].lastSeen <= after[kept].lastSeen
    ensures forall gone, kept | gone in before && gone !in after && kept in after ::
              before[gone].lastSeen <= after[kept].lastSeen
    ensures id !in after ==> forall kept | kept in after :: at <= after[kept].lastSeen
  {
    forall gone, kept | gone in before && gone !in after && kept in after
      ensures before[gone].lastSeen <= after[kept].lastSeen
    {
      assert grown[gone] == before[gone];
    }
    assert id !in after ==> grown[id].lastSeen == at;
  }

  /** The radios and the two counts around them. */
  datatype Table = Table(radios: map<int, Radio>, evicted: nat, created: nat)

  /** One radio touched: a known one is heard, a new one comes in. */
  ghost predicate TouchedOne(before: Table, after: Table, id: int, at: int, channel: Option<string>, cap: nat) {
    if id in before.radios then after == before.(radios := before.radios[id := Heard(before.radios[id], at, channel)])
    else
      && (exists mid :: Created(before.radios, mid, id, at, cap)
                        && after.radios == Set(mid, id, (r: Radio) => Heard(r, at, channel)))
      && after.created == before.created + 1
      && after.evicted == before.evicted + if |before.radios| < cap then 0 else Batch(cap)
  }

  /** The radios an event touches, in order; all its other effects on radios are marks on these. */
  function Touched(b: Body): seq<int> {
    match b
    case VoiceCall(_, src, _, _) => if src == 0 then [] else [src]
    case PreambleCsbk(addressing, src, tgt) => if addressing == "Individual" then [src, tgt] else [src]
    case DataHeader(_, _, src, _) => [src]
    case IpMapping(_, radioId, _) => [radioId]
    case LrrpPosition(reporter, _, _) => if reporter.Some? then [reporter.value] else []
    case LrrpRequest(src, tgt) => [src, tgt]
    case _ => []
  }

  ghost predicate TouchedAll(before: Table, after: Table, ids: seq<int>, at: int, channel: Option<string>, cap: nat)
    decreases |ids|
  {
    if ids == [] then after == before
    else exists mid :: TouchedOne(before, mid, ids[0], at, channel, cap) && TouchedAll(mid, after, ids[1..], at, channel, cap)
  }

  /** What the handlers write on the radio, given what the event's call key held once idle calls are gone. */
  function Marked(radios: map<int, Radio>, ev: Event, live: KeyState): map<int, Radio> {
    match ev.body
    case VoiceCall(slot, src, tgt, _) =>
      var same := live.active.Some? && live.active.value.src == src && live.active.value.tgt == tgt;
      if src == 0 then radios
      else Set(radios, src, (r: Radio) => r.(voiceFrames := r.voiceFrames + 1, lastTg := Some(tgt), lastSlot := Some(slot),
                                             lastCallEncrypted := same && r.lastCallEncrypted))
    case IpMapping(_, radioId, ip) => Set(radios, radioId, (r: Radio) => r.(ip := Some(ip)))
    case Encryption(_) =>
      if live.active.Some? then Set(radios, live.active.value.src, (r: Radio) => r.(lastCallEncrypted := true)) else radios
    case _ => radios
  }

  /** A frame's marks, as the handler makes them: the frame on the speaker, then, for a new call, the
      encryption flag cleared. */
  function Spoke(radios: map<int, Radio>, b: Body): map<int, Radio>
    requires b.VoiceCall?
  {
    Set(radios, b.src, (r: Radio) => r.(voiceFrames := r.voiceFrames + 1, lastTg := Some(b.tgt), lastSlot := Some(b.slot)))
  }

  function Flagged(radios: map<int, Radio>, id: int, encrypted: bool): map<int, Radio> {
    Set(radios, id, (r: Radio) => r.(lastCallEncrypted := encrypted))
  }

  lemma VoiceMarks(radios: map<int, Radio>, ev: Event, live: KeyState, started: bool)
    requires ev.body.VoiceCall? && ev.body.src != 0
    requires started <==> !(live.active.Some? && live.active.value.src == ev.body.src && live.active.value.tgt == ev.body.tgt)
    ensures (if started then Flagged(Spoke(radios, ev.body), ev.body.src, false) else Spoke(radios, ev.body))
            == Marked(radios, ev, live)
  {
  }

  function KeyOf(ev: Event): Key {
    Key(ev.channel, JsonSlot(ev.body).Or(0))
  }

  lemma TouchedSingle(before: Table, after: Table, id: int, at: int, channel: Option<string>, cap: nat)
    requires TouchedOne(before, after, id, at, channel, cap)
    ensures TouchedAll(before, after, [id], at, channel, cap)
  {
    assert [id][1..] == [];
    assert TouchedAll(after, after, [], at, channel, cap);
  }

  lemma TouchedPair(before: Table, mid: Table, after: Table, a: int, b: int, at: int, channel: Option<string>, cap: nat)
    requires TouchedOne(before, mid, a, at, channel, cap) && TouchedOne(mid, after, b, at, channel, cap)
    ensures TouchedAll(before, after, [a, b], at, channel, cap)
  {
    TouchedSingle(mid, after, b, at, channel, cap);
    assert [a, b][1..] == [b];
  }

  /** Radios that one touch removes, and radios that it keeps. */
  lemma OneTouchKeepsFresher(before: Table, after: Table, id: int, at: int, channel: Option<string>, cap: nat)
    requires TouchedOne(before, after, id, at, channel, cap)
    ensures forall gone, kept | gone in before.radios && gone !in after.radios && kept in after.radios ::
              before.radios[gone].lastSeen <= after.radios[kept].lastSeen
    ensures forall r | r in before.radios && r in after.radios ::
              before.radios[r].lastSeen <= after.radios[r].lastSeen
    ensures forall r | r in after.radios && r !in before.radios :: r == id
    ensures id in after.radios ==> at <= after.radios[id].lastSeen
  {
  }

  /** Whatever an event touches, no radio it leaves in the table was heard of earlier than one it
      removes, except its own radio when the event itself is older than the removed one. */
  lemma {:induction false} EventKeepsFresher(before: Table, after: Table, ids: seq<int>, at: int,
                                             channel: Option<string>, cap: nat)
    requires TouchedAll(before, after, ids, at, channel, cap)
    ensures forall gone, kept | gone in before.radios && gone !in after.radios && kept in after.radios ::
              || before.radios[gone].lastSeen <= after.radios[kept].lastSeen
              || (kept in ids && at < before.radios[gone].lastSeen)
    ensures forall r | r in before.radios && r in after.radios ::
              before.radios[r].lastSeen <= after.radios[r].lastSeen || (r in ids && at < before.radios[r].lastSeen)
    ensures forall r | r in after.radios && r !in before.radios :: r in ids
    ensures forall r | r in after.radios && r in ids :: at <= after.radios[r].lastSeen
    decreases |ids|
  {
    if ids == [] {
    } else {
      var mid :| TouchedOne(before, mid, ids[0], at, channel, cap) && TouchedAll(mid, after, ids[1..], at, channel, cap);
      OneTouchKeepsFresher(before, mid, ids[0], at, channel, cap);
      EventKeepsFresher(mid, after, ids[1..], at, channel, cap);
    }
  }

  /** One callback with the key it was made for. */
  datatype Note = Note(key: Key, callback: Callback)

  function About(key: Key, notes: seq<Note>): seq<Callback> {
    if notes == [] then []
    else About(key, notes[..|notes| - 1]) +
         if notes[|notes| - 1].key == key then [notes[|notes| - 1].callback] else []
  }

  lemma AboutSnoc(key: Key, notes: seq<Note>, n: Note)
    ensures About(key, notes + [n]) == About(key, notes) + if n.key == key then [n.callback] else []
  {
    assert (notes + [n])[..|notes|] == notes;
  }

  /** The calls of `expired` are still to be ended; the others that were stale are gone. */
  ghost predicate Expiring(before: map<Key, Call>, active: map<Key, Call>, now: int, timeout: int, expired: set<Key>) {
    && active.Keys <= before.Keys && (forall k | k in active :: active[k] == before[k])
    && (forall k | k in before && k !in active :: Stale(before[k], now, timeout))
    && (forall k | k in active :: k in expired <==> Stale(active[k], now, timeout))
    && expired <= active.Keys
  }

  function EndedBetween(before: map<Key, Call>, active: map<Key, Call>, k: Key): seq<Callback> {
    if k in before && k !in active then [Ended(before[k])] else []
  }

  class StateManager {
    var radios: map<int, Radio>
    var evictedTotal: nat
    var active: map<Key, Call>
    var notes: seq<Note>              // the callbacks made, in order
    var totalEvents: nat
    const maxRadios: nat
    const idleTimeout: int
    ghost var created: nat            // radios ever created or restored

    constructor (maxRadios: nat, idleTimeout: int)
      ensures this.maxRadios == maxRadios && this.idleTimeout == idleTimeout
      ensures Valid() && forall k :: Of(k) == IDLE
    {
      this.maxRadios, this.idleTimeout := maxRadios, idleTimeout;
      radios, evictedTotal, active, notes, totalEvents, created := map[], 0, map[], [], 0, 0;
    }

    /** The cap holds, keys match ids, and no radio ever vanished uncounted. */
    ghost predicate Valid()
      reads this
    {
      KeysMatch(radios) && |radios| <= maxRadios && |radios| + evictedTotal == created
    }

    ghost function Radios(): Table
      reads this
    {
      Table(radios, evictedTotal, created)
    }

    /** What the state holds about one key. */
    ghost function Of(key: Key): KeyState
      reads this`active, this`notes
    {
      KeyState(if key in active then Some(active[key]) else None, About(key, notes))
    }

    // ---- radios ----

    method TouchRadio(id: int, at: int, channel: Option<string>)
      requires Valid()
      modifies this`radios, this`evictedTotal, this`created
      ensures Valid() && TouchedOne(old(Radios()), Radios(), id, at, channel, maxRadios)
    {
      if id in radios {
        var r := radios[id];
        radios := radios[id := r.(lastSeen := if r.lastSeen < at then at else r.lastSeen)];
      } else {
        CreateRadio(id, at);
      }
      if channel.Some? {
        Update(id, (r: Radio) => r.(lastChannel := channel));
      }
    }

    method CreateRadio(id: int, at: int)
      requires Valid() && id !in radios
      modifies this`radios, this`evictedTotal, this`created
      ensures Valid() && created == old(created) + 1
      ensures Created(old(radios), radios, id, at, maxRadios)
      ensures evictedTotal == old(evictedTotal) + if |old(radios)| < maxRadios then 0 else Batch(maxRadios)
    {
      ghost var before := radios;
      radios := radios[id := NewRadio(id, at)];
      created := created + 1;
      ghost var grown := radios;
      assert |grown| == |before| + 1;
      if maxRadios < |radios| {
        EvictRadios();
        MadeRoom(before, grown, radios, id, at, maxRadios);
      }
    }

    method Update(id: int, change: Radio -> Radio)
      requires Valid() && forall r: Radio :: change(r).id == r.id
      modifies this`radios
      ensures Valid() && radios == Set(old(radios), id, change)
    {
      if id in radios {
        radios := radios[id := change(radios[id])];
      }
    }

    /** Removes max(overshoot, cap // 20, 1) of the oldest radios, never more than there are. */
    method EvictRadios()
      requires KeysMatch(radios)
      modifies this`radios, this`evictedTotal
      ensures |old(radios)| <= maxRadios ==> radios == old(radios) && evictedTotal == old(evictedTotal)
      ensures maxRadios < |old(radios)| ==>
                var n := Min(Max(|old(radios)| - maxRadios, Batch(maxRadios)), |old(radios)|);
                EvictedOldest(old(radios), radios, n) && evictedTotal == old(evictedTotal) + n
      ensures KeysMatch(radios) && |radios| <= maxRadios
      ensures |radios| + evictedTotal == |old(radios)| + old(evictedTotal)
    {
      var overshoot := |radios| - maxRadios;
      if overshoot <= 0 {
        return;
      }
      var batch: nat := Min(Max(overshoot, Max(maxRadios / 20, 1)), |radios|);
      var removed := 0;
      while removed < batch
        invariant removed <= batch <= |old(radios)|
        invariant EvictedOldest(old(radios), radios, removed)
        invariant evictedTotal == old(evictedTotal)
      {
        var id := Oldest();
        assert (radios - {id}).Keys == radios.Keys - {id};
        radios := radios - {id};
        removed := removed + 1;
      }
      evictedTotal := evictedTotal + removed;
    }

    /** The head of the radios sorted by last_seen. */
    method Oldest() returns (id: int)
      requires radios.Keys != {}
      ensures id in radios && forall r | r in radios :: radios[id].lastSeen <= radios[r].lastSeen
    {
      var rest := radios.Keys;
      id := Seqs.Pick(rest);
      while rest != {}
        invariant id in radios && rest <= radios.Keys
        invariant forall r | r in radios && r !in rest :: radios[id].lastSeen <= radios[r].lastSeen
        decreases |rest|
      {
        var r := Seqs.Pick(rest);
        rest := rest - {r};
        if radios[r].lastSeen < radios[id].lastSeen {
          id := r;
        }
      }
    }

    /** A snapshot from before the cap must not resurrect an oversized table. */
    method Restore(saved: map<int, Radio>, evictedBefore: nat)
      requires KeysMatch(saved)
      modifies this
      ensures Valid() && created == |saved| + evictedBefore
      ensures |saved| <= maxRadios ==> radios == saved && evictedTotal == evictedBefore
      ensures maxRadios < |saved| ==>
                var n := Min(Max(|saved| - maxRadios, Batch(maxRadios)), |saved|);
                EvictedOldest(saved, radios, n) && evictedTotal == evictedBefore + n
      ensures active == old(active) && notes == old(notes)
    {
      radios, evictedTotal, created := saved, evictedBefore, |saved| + evictedBefore;
      if maxRadios < |radios| {
        EvictRadios();
      }
    }

    // ---- calls ----

    method ExpireIdleCalls(now: int)
      modifies this`active, this`notes
      ensures forall k :: Of(k) == Expire(old(Of(k)), now, idleTimeout)
    {
      var expired := set k | k in active && Stale(active[k], now, idleTimeout);
      while expired != {}
        invariant Expiring(old(active), active, now, idleTimeout, expired)
        invariant forall k :: About(k, notes) == About(k, old(notes)) + EndedBetween(old(active), active, k)
        decreases |expired|
      {
        var k :| k in expired;
        NotesSnoc(notes, Note(k, Ended(active[k])));
        notes := notes + [Note(k, Ended(active[k]))];
        active := active - {k};
        expired := expired - {k};
      }
    }

    method Tick(now: int)
      requires Valid()
      modifies this
      ensures Valid() && Radios() == old(Radios()) && totalEvents == old(totalEvents)
      ensures forall k :: Of(k) == Next(old(Of(k)), k, CallTracking.Tick(now), idleTimeout)
    {
      ExpireIdleCalls(now);
    }

    /** One event.  It touches just the radios it names and marks them as its handler says, and each
        call key moves exactly as the single-key machine says.  `touched` is the table before the marks. */
    method Apply(ev: Event) returns (ghost touched: map<int, Radio>)
      requires Valid()
      modifies this
      ensures Valid() && totalEvents == old(totalEvents) + 1
      ensures forall k :: Of(k) == Next(old(Of(k)), k, CallTracking.Apply(ev), idleTimeout)
      ensures TouchedAll(old(Radios()), Radios().(radios := touched), Touched(ev.body), When(ev), ev.channel, maxRadios)
      ensures radios == Marked(touched, ev, Expire(old(Of(KeyOf(ev))), When(ev), idleTimeout))
    {
      totalEvents := totalEvents + 1;
      var at := When(ev);
      ExpireIdleCalls(at);
      if ev.body.VoiceCall? {
        touched := OnVoiceCall(ev);
      } else if ev.body.Encryption? {
        touched := radios;
        OnEncryption(ev);
      } else {
        touched := TouchRadios(ev);
      }
    }

    /** The handlers that only touch radios. */
    method TouchRadios(ev: Event) returns (ghost touched: map<int, Radio>)
      requires Valid() && !ev.body.VoiceCall? && !ev.body.Encryption?
      modifies this`radios, this`evictedTotal, this`created
      ensures Valid()
      ensures TouchedAll(old(Radios()), Radios().(radios := touched), Touched(ev.body), When(ev), ev.channel, maxRadios)
      ensures forall live :: radios == Marked(touched, ev, live)
    {
      match ev.body {
        case PreambleCsbk(addressing, src, tgt) =>
          if addressing == "Individual" {
            TouchTwo(src, tgt, ev);
          } else {
            TouchAlone(src, ev);
          }
          touched := radios;
        case DataHeader(_, _, src, _) =>
          TouchAlone(src, ev);
          touched := radios;
        case IpMapping(_, _, _) =>
          touched := OnIpMapping(ev);
        case LrrpPosition(reporter, _, _) =>
          if reporter.Some? {
            TouchAlone(reporter.value, ev);
          }
          touched := radios;
        case LrrpRequest(src, tgt) =>
          TouchTwo(src, tgt, ev);
          touched := radios;
        case _ => touched := radios;
      }
    }

    method OnIpMapping(ev: Event) returns (ghost touched: map<int, Radio>)
      requires Valid() && ev.body.IpMapping?
      modifies this`radios, this`evictedTotal, this`created
      ensures Valid()
      ensures TouchedAll(old(Radios()), Radios().(radios := touched), Touched(ev.body), When(ev), ev.channel, maxRadios)
      ensures forall live :: radios == Marked(touched, ev, live)
    {
      TouchAlone(ev.body.radioId, ev);
      touched := radios;
      Update(ev.body.radioId, (r: Radio) => r.(ip := Some(ev.body.ip)));
    }

    method TouchAlone(id: int, ev: Event)
      requires Valid()
      modifies this`radios, this`evictedTotal, this`created
      ensures Valid() && TouchedAll(old(Radios()), Radios(), [id], When(ev), ev.channel, maxRadios)
    {
      ghost var before := Radios();
      TouchRadio(id, When(ev), ev.channel);
      TouchedSingle(before, Radios(), id, When(ev), ev.channel, maxRadios);
    }

    method TouchTwo(first: int, second: int, ev: Event)
      requires Valid()
      modifies this`radios, this`evictedTotal, this`created
      ensures Valid() && TouchedAll(old(Radios()), Radios(), [first, second], When(ev), ev.channel, maxRadios)
    {
      ghost var before := Radios();
      TouchRadio(first, When(ev), ev.channel);
      ghost var mid := Radios();
      TouchRadio(second, When(ev), ev.channel);
      TouchedPair(before, mid, Radios(), first, second, When(ev), ev.channel, maxRadios);
    }

    method OnVoiceCall(ev: Event) returns (ghost touched: map<int, Radio>)
      requires Valid() && ev.body.VoiceCall?
      modifies this`radios, this`evictedTotal, this`created, this`active, this`notes
      ensures Valid()
      ensures forall k :: Of(k) == if On(k, ev) then OnVoice(old(Of(k)), When(ev), ev.body) else old(Of(k))
      ensures TouchedAll(old(Radios()), Radios().(radios := touched), Touched(ev.body), When(ev), ev.channel, maxRadios)
      ensures radios == Marked(touched, ev, old(Of(KeyOf(ev))))
    {
      touched := radios;
      if ev.body.src == 0 {
        return;
      }
      TouchAlone(ev.body.src, ev);
      touched := radios;
      ghost var live := Of(KeyOf(ev));
      var started := Speak(ev);
      VoiceMarks(touched, ev, live, started);
    }

    /** The frame on the speaker's entry and on the call key. */
    method Speak(ev: Event) returns (started: bool)
      requires Valid() && ev.body.VoiceCall? && ev.body.src != 0
      modifies this`radios, this`active, this`notes
      ensures Valid()
      ensures forall k :: Of(k) == if On(k, ev) then OnVoice(old(Of(k)), When(ev), ev.body) else old(Of(k))
      ensures var call := old(Of(KeyOf(ev))).active;
              started <==> !(call.Some? && call.value.src == ev.body.src && call.value.tgt == ev.body.tgt)
      ensures var spoke := Spoke(old(radios), ev.body);
              radios == if started then Flagged(spoke, ev.body.src, false) else spoke
    {
      var b := ev.body;
      Update(b.src, (r: Radio) => r.(voiceFrames := r.voiceFrames + 1, lastTg := Some(b.tgt), lastSlot := Some(b.slot)));
      assert radios == Spoke(old(radios), b);
      started := Frame(Key(ev.channel, b.slot), When(ev), b);
      if started {
        Update(b.src, (r: Radio) => r.(lastCallEncrypted := false));
      }
      assert forall k :: On(k, ev) <==> k == Key(ev.channel, b.slot);
    }

    method Frame(key: Key, at: int, b: Body) returns (started: bool)
      requires b.VoiceCall? && b.src != 0
      modifies this`active, this`notes
      ensures forall k :: Of(k) == if k == key then OnVoice(old(Of(k)), at, b) else old(Of(k))
      ensures started <==> !(key in old(active) && old(active)[key].src == b.src && old(active)[key].tgt == b.tgt)
    {
      started := !(key in active && active[key].src == b.src && active[key].tgt == b.tgt);
      if started {
        StartCall(key, at, b);
      } else {
        var c := active[key];
        active := active[key := c.(lastFrameAt := at, frames := c.frames + 1,
                                   restLsn := if b.restLsn.Some? then b.restLsn else c.restLsn)];
      }
    }

    method StartCall(key: Key, at: int, b: Body)
      requires b.VoiceCall? && b.src != 0
      requires key in active ==> !(active[key].src == b.src && active[key].tgt == b.tgt)
      modifies this`active, this`notes
      ensures forall k :: Of(k) == if k == key then OnVoice(old(Of(k)), at, b) else old(Of(k))
    {
      if key in active {
        NotesSnoc(notes, Note(key, Ended(active[key])));
        notes := notes + [Note(key, Ended(active[key]))];
      } else {
        Seqs.Empty(About(key, notes));
      }
      NotesSnoc(notes, Note(key, Started(NewCall(at, b))));
      notes := notes + [Note(key, Started(NewCall(at, b)))];
      active := active[key := NewCall(at, b)];
    }

    method OnEncryption(ev: Event)
      requires Valid() && ev.body.Encryption?
      modifies this`radios, this`active
      ensures Valid() && radios == Marked(old(radios), ev, old(Of(KeyOf(ev))))
      ensures forall k :: Of(k) == if On(k, ev) && k in old(active)
                                   then old(Of(k)).(active := Some(old(active)[k].(encrypted := true)))
                                   else old(Of(k))
    {
      var key := Key(ev.channel, ev.body.slot);
      if key in active {
        var c := active[key];
        active := active[key := c.(encrypted := true)];
        Update(c.src, (r: Radio) => r.(lastCallEncrypted := true));
      }
    }
  }

  lemma NotesSnoc(notes: seq<Note>, n: Note)
    ensures forall k :: About(k, notes + [n]) == About(k, notes) + if n.key == k then [n.callback] else []
  {
    forall k ensures About(k, notes + [n]) == About(k, notes) + if n.key == k then [n.callback] else [] {
      AboutSnoc(k, notes, n);
    }
  }

  // ---- evictions are spaced ----

  /** The table size after one creation. */
  function SizeNext(cap: nat, n: nat): nat
    requires n <= cap
  {
    if n == cap then cap + 1 - Batch(cap) else n + 1
  }

  /** One step of a run: a radio is touched, or radios in the table are marked. */
  ghost predicate Moves(before: Table, after: Table, cap: nat) {
    || (exists id, at, channel :: TouchedOne(before, after, id, at, channel, cap))
    || (after.radios.Keys == before.radios.Keys && after.evicted == before.evicted && after.created == before.created)
  }

  ghost predicate History(ts: seq<Table>, cap: nat) {
    ts != [] && |ts[0].radios| <= cap && forall n | 0 < n < |ts| :: Moves(ts[n - 1], ts[n], cap)
  }

  lemma LongerHistory(t: Table, ts: seq<Table>, cap: nat)
    requires History(ts, cap) && |t.radios| <= cap && Moves(t, ts[0], cap)
    ensures History([t] + ts, cap)
  {
  }

  lemma {:induction false} TouchesAreHistory(before: Table, after: Table, ids: seq<int>, at: int, channel: Option<string>, cap: nat)
    returns (ts: seq<Table>)
    requires TouchedAll(before, after, ids, at, channel, cap) && |before.radios| <= cap
    ensures History(ts, cap) && ts[0] == before && ts[|ts| - 1] == after
    decreases |ids|
  {
    if ids == [] {
      ts := [before];
    } else {
      var mid :| TouchedOne(before, mid, ids[0], at, channel, cap) && TouchedAll(mid, after, ids[1..], at, channel, cap);
      OneMove(before, mid, cap);
      var rest := TouchesAreHistory(mid, after, ids[1..], at, channel, cap);
      LongerHistory(before, rest, cap);
      ts := [before] + rest;
    }
  }

  /** An event, as Apply says it moves the table, is such a run. */
  lemma EventIsHistory(before: Table, after: Table, touched: map<int, Radio>, ev: Event, live: KeyState, cap: nat)
    returns (ts: seq<Table>)
    requires TouchedAll(before, after.(radios := touched), Touched(ev.body), When(ev), ev.channel, cap)
    requires after.radios == Marked(touched, ev, live) && |before.radios| <= cap
    ensures History(ts, cap) && ts[0] == before && ts[|ts| - 1] == after
  {
    var front := TouchesAreHistory(before, after.(radios := touched), Touched(ev.body), When(ev), ev.channel, cap);
    MarksKeepKeys(touched, ev, live);
    HistorySnoc(front, after, cap);
    ts := front + [after];
  }

  lemma MarksKeepKeys(touched: map<int, Radio>, ev: Event, live: KeyState)
    ensures Marked(touched, ev, live).Keys == touched.Keys
  {
  }

  lemma HistorySnoc(ts: seq<Table>, t: Table, cap: nat)
    requires History(ts, cap)
    requires var last := ts[|ts| - 1];
             t.radios.Keys == last.radios.Keys && t.evicted == last.evicted && t.created == last.created
    ensures History(ts + [t], cap)
  {
    var longer := ts + [t];
    assert Moves(ts[|ts| - 1], t, cap);
    forall n | 0 < n < |longer| ensures Moves(longer[n - 1], longer[n], cap) {
      assert longer[n - 1] == ts[n - 1];
    }
  }

  /** An eviction leaves room for a batch, and a table without room for one more is full. */
  lemma OneMove(before: Table, after: Table, cap: nat)
    requires Moves(before, after, cap) && |before.radios| <= cap
    ensures |after.radios| <= cap && before.created <= after.created
    ensures |after.radios| - |before.radios| <= after.created - before.created
    ensures before.evicted <= after.evicted
    ensures before.evicted < after.evicted ==>
              && |before.radios| == cap && after.created == before.created + 1
              && |after.radios| == cap + 1 - Batch(cap)
  {
    if id, at, channel :| TouchedOne(before, after, id, at, channel, cap) {
      OneTouch(before, after, id, at, channel, cap);
    } else {
      assert |after.radios| == |after.radios.Keys| == |before.radios.Keys|;
    }
  }

  lemma OneTouch(before: Table, after: Table, id: int, at: int, channel: Option<string>, cap: nat)
    requires TouchedOne(before, after, id, at, channel, cap) && |before.radios| <= cap
    ensures if id in before.radios then |after.radios| == |before.radios| && after.created == before.created
            else |after.radios| == SizeNext(cap, |before.radios|) && after.created == before.created + 1
    ensures after.evicted == before.evicted
                             + if id in before.radios || |before.radios| < cap then 0 else Batch(cap)
  {
    if id in before.radios {
      assert after.radios.Keys == before.radios.Keys;
    } else {
      var mid :| Created(before.radios, mid, id, at, cap)
                 && after.radios == Set(mid, id, (r: Radio) => Heard(r, at, channel));
      assert after.radios.Keys == mid.Keys;
    }
  }

  /** What each step keeps, in numbers. */
  predicate Slow(before: Table, after: Table, cap: nat) {
    && |after.radios| <= cap && before.created <= after.created
    && |after.radios| - |before.radios| <= after.created - before.created
  }

  lemma {:induction false} AlwaysWithinCap(ts: seq<Table>, cap: nat, n: nat)
    requires History(ts, cap) && n < |ts|
    ensures |ts[n].radios| <= cap && (0 < n ==> Slow(ts[n - 1], ts[n], cap))
  {
    if n == 0 {
    } else {
      AlwaysWithinCap(ts, cap, n - 1);
      OneMove(ts[n - 1], ts[n], cap);
    }
  }

  lemma {:induction false} GrowsByCreation(ts: seq<Table>, cap: nat, i: nat, j: nat)
    requires i <= j < |ts| && forall n | 0 < n < |ts| :: Slow(ts[n - 1], ts[n], cap)
    ensures |ts[j].radios| - |ts[i].radios| <= ts[j].created - ts[i].created
    decreases j - i
  {
    if i == j {
    } else {
      GrowsByCreation(ts, cap, i, j - 1);
      assert Slow(ts[j - 1], ts[j], cap);
    }
  }

  /** Over any run, an eviction comes no sooner than with creation number max(1, cap // 20) after the
      one before it, so the sort is paid for by that many new radios. */
  lemma EvictionsAreSpaced(ts: seq<Table>, cap: nat, i: nat, j: nat)
    requires History(ts, cap) && i < j < |ts| - 1
    requires ts[i].evicted < ts[i + 1].evicted && ts[j].evicted < ts[j + 1].evicted
    ensures Max(1, cap / 20) <= ts[j + 1].created - ts[i + 1].created
  {
    forall n | 0 < n < |ts| ensures Slow(ts[n - 1], ts[n], cap) {
      AlwaysWithinCap(ts, cap, n);
    }
    AlwaysWithinCap(ts, cap, i);
    AlwaysWithinCap(ts, cap, j);
    GrowsByCreation(ts, cap, i + 1, j);
    OneMove(ts[i], ts[i + 1], cap);
    OneMove(ts[j], ts[j + 1], cap);
  }
}
