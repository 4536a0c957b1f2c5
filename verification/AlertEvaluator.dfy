/** The evaluator object (backend/alerts.py): one event and one tick through all rules, what the
    event rules react to, and how both are runs of the two-thread machine. */
module AlertEvaluator {
  import opened Prelude
  import opened Events
  import opened Alerts
  import Dossier
  import Seqs

  // ---- one event or one tick through the rules, in list order ----

  function EventRule(d: Data, rules: Rules, id: string, ev: Event): Data
    requires id in rules
  {
    var (d1, f) := EvalEvent(d, rules, id, ev);
    if f.Some? then Recorded(d1, f.value) else d1
  }

  predicate Known(rules: Rules, order: seq<string>) {
    forall i | 0 <= i < |order| :: order[i] in rules
  }

  /** Each enabled rule evaluated once, and its firing recorded before the next one's turn. */
  function EventRules(d: Data, rules: Rules, order: seq<string>, ev: Event): Data
    requires Known(rules, order)
  {
    if order == [] then d
    else
      var d1, id := EventRules(d, rules, order[..|order| - 1], ev), order[|order| - 1];
      if rules[id].enabled then EventRule(d1, rules, id, ev) else d1
  }

  /** The check of a cc_silent rule with nothing between its two blocks. */
  predicate Silent(d: Data, rules: Rules, id: string, now: int)
    requires id in rules && rules[id].kind.CcSilent?
  {
    id !in d.ccFired && d.lastCcAt.Some? && rules[id].kind.timeout <= now - d.lastCcAt.value
  }

  /** `spike`: the measured error rate crosses the threshold of a quality rule. */
  function TickRule(d: Data, rules: Rules, id: string, now: int, spike: bool): Data
    requires id in rules
  {
    match rules[id].kind
    case CcSilent(_) => if Silent(d, rules, id, now) then Recorded(Latch(d, id, now).0, Firing(id, now)) else d
    case QualitySpike => if CooldownOk(d, rules, id, now) && spike then Recorded(d, Firing(id, now)) else d
    case _ => d
  }

  function TickRules(d: Data, rules: Rules, order: seq<string>, now: int, spikes: set<string>): Data
    requires Known(rules, order)
  {
    if order == [] then d
    else
      var d1, id := TickRules(d, rules, order[..|order| - 1], now, spikes), order[|order| - 1];
      if rules[id].enabled then TickRule(d1, rules, id, now, id in spikes) else d1
  }

  class Evaluator {
    const rules: Rules
    const order: seq<string>          // the rule list
    var lastFired: map<string, int>
    var lastCallKey: map<string, map<int, (int, int)>>
    var slotCall: map<int, (int, int)>
    var lastCcAt: Option<int>
    var ccFired: set<string>
    var firings: seq<Firing>
    ghost var marks: seq<Mark>

    ghost function Shared(): Data
      reads this
    {
      Data(lastFired, lastCallKey, slotCall, lastCcAt, ccFired, firings, marks)
    }

    constructor (rules: Rules, order: seq<string>)
      ensures this.rules == rules && this.order == order && Shared() == START
    {
      this.rules, this.order := rules, order;
      lastFired, lastCallKey, slotCall, lastCcAt, ccFired, firings, marks := map[], map[], map[], None, {}, [], [];
    }

    method CacheEvent(ev: Event)
      modifies this
      ensures Shared() == Cache(old(Shared()), ev)
    {
      if ev.body.VoiceCall? && ev.body.src != 0 {
        slotCall := slotCall[ev.body.slot := (ev.body.src, ev.body.tgt)];
      }
      if IsControlChannel(ev.body) {
        lastCcAt, ccFired := Some(When(ev)), {};
        marks := marks + [ControlChannel];
      }
    }

    method Cooldown(id: string, when: int) returns (ok: bool)
      requires id in rules
      ensures ok == CooldownOk(Shared(), rules, id, when)
    {
      if id !in lastFired {
        return true;
      }
      return rules[id].cooldown <= when - lastFired[id];
    }

    method EvaluateEvent(id: string, ev: Event) returns (f: Option<Firing>)
      requires id in rules
      modifies this`lastCallKey
      ensures (Shared(), f) == EvalEvent(old(Shared()), rules, id, ev)
    {
      f := None;
      match rules[id].kind
      case RadioKeyup(radioIds) =>
        if !ev.body.VoiceCall? || ev.body.src !in radioIds {
          return;
        }
        var keys := if id in lastCallKey then lastCallKey[id] else map[];
        if ev.body.slot in keys && keys[ev.body.slot] == (ev.body.src, ev.body.tgt) {
          return;   // continuation of the same call
        }
        lastCallKey := lastCallKey[id := keys[ev.body.slot := (ev.body.src, ev.body.tgt)]];
        var ok := Cooldown(id, When(ev));
        f := if ok then Some(Firing(id, When(ev))) else None;
      case EncryptionSeen(tgIds) =>
        if !ev.body.Encryption? {
          return;
        }
        if tgIds != {} && (ev.body.slot !in slotCall || slotCall[ev.body.slot].1 !in tgIds) {
          return;
        }
        var ok := Cooldown(id, When(ev));
        f := if ok then Some(Firing(id, When(ev))) else None;
      case _ =>
    }

    method Record(f: Firing)
      modifies this`lastFired, this`firings, this`marks
      ensures Shared() == Recorded(old(Shared()), f)
    {
      lastFired := lastFired[f.rule := f.at];
      firings, marks := firings + [f], marks + [Fired(f)];
    }

    /** One event with nothing in between its blocks. */
    method OnEvent(ev: Event)
      requires Known(rules, order)
      modifies this
      ensures Shared() == EventRules(Cache(old(Shared()), ev), rules, order, ev)
    {
      CacheEvent(ev);
      Seqs.Whole(order);
      for n := 0 to |order|
        invariant Shared() == EventRules(Cache(old(Shared()), ev), rules, order[..n], ev)
      {
        Seqs.TakeSnoc(order, n);
        if rules[order[n]].enabled {
          var f := EvaluateEvent(order[n], ev);
          if f.Some? {
            Record(f.value);
          }
        }
      }
    }

    /** The first block of the cc_silent check, and the arithmetic after it. */
    method SilenceCheck(id: string, now: int) returns (seen: Option<int>)
      requires id in rules && rules[id].kind.CcSilent?
      ensures seen == if Silent(Shared(), rules, id, now) then lastCcAt else None
    {
      if id in ccFired || lastCcAt.None? {
        return None;
      }
      var silentFor := now - lastCcAt.value;
      return if silentFor < rules[id].kind.timeout then None else lastCcAt;
    }

    /** The second block. */
    method SilenceLatch(id: string, now: int) returns (f: Option<Firing>)
      modifies this`ccFired, this`marks
      ensures (Shared(), f) == Latch(old(Shared()), id, now)
    {
      if id in ccFired {
        return None;
      }
      ccFired := ccFired + {id};
      marks := marks + [Latched(id)];
      return Some(Firing(id, now));
    }

    /** `spike` is the answer of the quality query, if it gets asked. */
    method EvaluateTick(id: string, now: int, spike: bool) returns (f: Option<Firing>)
      requires id in rules
      modifies this`ccFired, this`marks
      ensures f.Some? ==> f.value == Firing(id, now)
      ensures TickRule(old(Shared()), rules, id, now, spike) == if f.Some? then Recorded(Shared(), f.value) else Shared()
    {
      f := None;
      match rules[id].kind
      case CcSilent(_) =>
        var seen := SilenceCheck(id, now);
        if seen.Some? {
          f := SilenceLatch(id, now);
        }
      case QualitySpike =>
        var ok := Cooldown(id, now);
        f := if ok && spike then Some(Firing(id, now)) else None;
      case _ =>
    }

    /** One tick with nothing in between its blocks.  `spikes` are the rules whose measured error
        rate crosses their threshold. */
    method Tick(now: int, spikes: set<string>)
      requires Known(rules, order)
      modifies this
      ensures Shared() == TickRules(old(Shared()), rules, order, now, spikes)
    {
      Seqs.Whole(order);
      for n := 0 to |order|
        invariant Shared() == TickRules(old(Shared()), rules, order[..n], now, spikes)
      {
        Seqs.TakeSnoc(order, n);
        if rules[order[n]].enabled {
          var f := EvaluateTick(order[n], now, order[n] in spikes);
          if f.Some? {
            Record(f.value);
          }
        }
      }
    }
  }

  // ---- both are runs of the machine ----

  /** Handling an event is a run of the event thread, whatever the tick thread is in the middle of. */
  lemma OnEventIsRun(d: Data, rules: Rules, order: seq<string>, ev: Event, tick: TickPc) returns (acts: seq<Action>)
    requires Known(rules, order)
    ensures Traced(rules, State(d, EIdle, tick), acts,
                   State(EventRules(Cache(d, ev), rules, order, ev), EIdle, tick))
    ensures forall i | 0 <= i < |acts| :: EventStep(acts[i])
    ensures EventsIn(acts) == [ev] && forall id | IsEventRule(rules, id) && Once(order, id) :: OnceEach(acts, id)
  {
    var start := State(d, EIdle, tick);
    Trace(rules, start, [], start, EventCache(ev));
    FirstTrace(ev);
    acts := EventRulesRun(start, rules, order, ev, [EventCache(ev)]);
    forall id | IsEventRule(rules, id) && Once(order, id) ensures OnceEach(acts + [EventDone], id) {
      Traces(acts, EventDone, id);
    }
    Traces(acts, EventDone, "");
    Seqs.Empty(EventsIn(acts));
    Trace(rules, start, acts, State(EventRules(Cache(d, ev), rules, order, ev), EHandling(ev), tick), EventDone);
    acts := acts + [EventDone];
  }

  lemma FirstTrace(ev: Event)
    ensures EventsIn([EventCache(ev)]) == [ev]
    ensures forall id :: TurnOf([EventCache(ev)], id) == Waiting && OnceEach([EventCache(ev)], id)
  {
    assert [EventCache(ev)][..0] == [];
  }

  /** After the rules of `order`: each of them has had its turn, the others still wait. */
  ghost predicate TurnsTaken(rules: Rules, order: seq<string>, acts: seq<Action>, ev: Event) {
    && EventsIn(acts) == [ev]
    && (forall id | IsEventRule(rules, id) && Once(order, id) :: OnceEach(acts, id) && TurnOf(acts, id) == Taken)
    && (forall id | id !in order :: OnceEach(acts, id) && TurnOf(acts, id) == Waiting)
  }

  lemma TurnsTakenNext(rules: Rules, order: seq<string>, acts: seq<Action>, ev: Event, recorded: bool)
    requires order != [] && TurnsTaken(rules, order[..|order| - 1], acts, ev)
    ensures var last := order[|order| - 1];
            var more := if recorded then acts + [EventEval(last)] + [EventRecord] else acts + [EventEval(last)];
            TurnsTaken(rules, order, more, ev)
    ensures !IsEventRule(rules, order[|order| - 1]) ==> TurnsTaken(rules, order, acts, ev)
  {
    var front, last := order[..|order| - 1], order[|order| - 1];
    var eval := acts + [EventEval(last)];
    var more := if recorded then eval + [EventRecord] else eval;
    Seqs.Empty(EventsIn(acts));
    forall id ensures EventsIn(more) == EventsIn(acts) && EventsIn(eval) == EventsIn(acts)
              ensures TurnOf(more, id) == if id == last then Taken else TurnOf(acts, id)
              ensures OnceEach(acts, id) && (id == last ==> TurnOf(acts, id) == Waiting) ==> OnceEach(more, id)
    {
      Traces(acts, EventEval(last), id);
      Traces(eval, EventRecord, id);
    }
    assert order == front + [last];
    forall id | Once(order, id) ensures if id == last then id !in front else Once(front, id) {
      OnceInFront(order, id);
    }
  }

  lemma OnceInFront(order: seq<string>, id: string)
    requires Once(order, id)
    ensures if id == order[|order| - 1] then id !in order[..|order| - 1] else Once(order[..|order| - 1], id)
  {
    var front := order[..|order| - 1];
    var i :| 0 <= i < |order| && order[i] == id && forall j | 0 <= j < |order| && j != i :: order[j] != id;
    if id != order[|order| - 1] {
      assert front[i] == id;
    }
  }

  lemma {:induction false} EventRulesRun(start: State, rules: Rules, order: seq<string>, ev: Event, before: seq<Action>)
    returns (acts: seq<Action>)
    requires Known(rules, order)
    requires Traced(rules, start, before, State(Cache(start.data, ev), EHandling(ev), start.tick))
    requires forall i | 0 <= i < |before| :: EventStep(before[i])
    requires TurnsTaken(rules, [], before, ev)
    ensures TurnsTaken(rules, order, acts, ev)
    ensures Traced(rules, start, acts, State(EventRules(Cache(start.data, ev), rules, order, ev), EHandling(ev), start.tick))
    ensures forall i | 0 <= i < |acts| :: EventStep(acts[i])
  {
    if order == [] {
      acts := before;
    } else {
      var front, id := order[..|order| - 1], order[|order| - 1];
      acts := EventRulesRun(start, rules, front, ev, before);
      if rules[id].enabled {
        var s := State(EventRules(Cache(start.data, ev), rules, front, ev), EHandling(ev), start.tick);
        TurnsTakenNext(rules, order, acts, ev, Next(rules, s, EventEval(id)).event.ERecording?);
        Trace(rules, start, acts, s, EventEval(id));
        acts := acts + [EventEval(id)];
        var t := Next(rules, s, EventEval(id));
        if t.event.ERecording? {
          Trace(rules, start, acts, t, EventRecord);
          acts := acts + [EventRecord];
        }
      } else {
        TurnsTakenNext(rules, order, acts, ev, false);
      }
    }
  }

  /** A tick is a run of the tick thread, whatever the event thread is in the middle of. */
  lemma TickIsRun(d: Data, rules: Rules, order: seq<string>, now: int, spikes: set<string>, event: EventPc)
    returns (acts: seq<Action>)
    requires Known(rules, order)
    ensures Traced(rules, State(d, event, TIdle), acts,
                   State(TickRules(d, rules, order, now, spikes), event, TIdle))
    ensures forall i | 0 <= i < |acts| :: !EventStep(acts[i])
  {
    var start := State(d, event, TIdle);
    Trace(rules, start, [], start, TickStart(now));
    acts := TickRulesRun(start, rules, order, now, spikes, [TickStart(now)]);
    Trace(rules, start, acts, State(TickRules(d, rules, order, now, spikes), event, TTicking(now)), TickDone);
    acts := acts + [TickDone];
  }

  lemma {:induction false} TickRulesRun(start: State, rules: Rules, order: seq<string>, now: int, spikes: set<string>,
                                        before: seq<Action>) returns (acts: seq<Action>)
    requires Known(rules, order)
    requires Traced(rules, start, before, State(start.data, start.event, TTicking(now)))
    requires forall i | 0 <= i < |before| :: !EventStep(before[i])
    ensures Traced(rules, start, acts,
                   State(TickRules(start.data, rules, order, now, spikes), start.event, TTicking(now)))
    ensures forall i | 0 <= i < |acts| :: !EventStep(acts[i])
  {
    if order == [] {
      acts := before;
    } else {
      var front, id := order[..|order| - 1], order[|order| - 1];
      acts := TickRulesRun(start, rules, front, now, spikes, before);
      if rules[id].enabled {
        var s := State(TickRules(start.data, rules, front, now, spikes), start.event, TTicking(now));
        if rules[id].kind.CcSilent? {
          acts := SilenceRun(start, rules, id, acts, s);
        } else if rules[id].kind.QualitySpike? {
          acts := QualityRun(start, rules, id, id in spikes, acts, s);
        }
      }
    }
  }

  lemma SilenceRun(start: State, rules: Rules, id: string, before: seq<Action>, s: State) returns (acts: seq<Action>)
    requires id in rules && rules[id].enabled && rules[id].kind.CcSilent? && s.tick.TTicking?
    requires Traced(rules, start, before, s) && forall i | 0 <= i < |before| :: !EventStep(before[i])
    ensures Traced(rules, start, acts, s.(data := TickRule(s.data, rules, id, s.tick.now, false)))
    ensures forall i | 0 <= i < |acts| :: !EventStep(acts[i])
    ensures forall spike :: TickRule(s.data, rules, id, s.tick.now, spike) == TickRule(s.data, rules, id, s.tick.now, false)
  {
    Trace(rules, start, before, s, TickCcCheck(id));
    acts := before + [TickCcCheck(id)];
    if Silent(s.data, rules, id, s.tick.now) {
      var t := Next(rules, s, TickCcCheck(id));
      Trace(rules, start, acts, t, TickCcLatch);
      acts := acts + [TickCcLatch];
      Trace(rules, start, acts, Next(rules, t, TickCcLatch), TickRecord);
      acts := acts + [TickRecord];
    }
  }

  lemma QualityRun(start: State, rules: Rules, id: string, spike: bool, before: seq<Action>, s: State)
    returns (acts: seq<Action>)
    requires id in rules && rules[id].enabled && rules[id].kind.QualitySpike? && s.tick.TTicking?
    requires Traced(rules, start, before, s) && forall i | 0 <= i < |before| :: !EventStep(before[i])
    ensures Traced(rules, start, acts, s.(data := TickRule(s.data, rules, id, s.tick.now, spike)))
    ensures forall i | 0 <= i < |acts| :: !EventStep(acts[i])
  {
    Trace(rules, start, before, s, TickQualityCheck(id));
    acts := before + [TickQualityCheck(id)];
    if CooldownOk(s.data, rules, id, s.tick.now) {
      var t := Next(rules, s, TickQualityCheck(id));
      Trace(rules, start, acts, t, TickQualityResult(spike));
      acts := acts + [TickQualityResult(spike)];
      if spike {
        Trace(rules, start, acts, Next(rules, t, TickQualityResult(spike)), TickRecord);
        acts := acts + [TickRecord];
      }
    }
  }

  // ---- an event rule does not notice the other rules ----

  function FiringsBy(log: seq<Firing>, id: string): seq<Firing> {
    if log == [] then []
    else FiringsBy(log[..|log| - 1], id) + if log[|log| - 1].rule == id then [log[|log| - 1]] else []
  }

  /** All that an event rule reads or writes. */
  datatype Share = Share(keys: map<int, (int, int)>, lastFired: Option<int>, slotCall: map<int, (int, int)>,
                         firings: seq<Firing>)

  function ShareOf(d: Data, id: string): Share {
    Share(CallKeys(d, id), if id in d.lastFired then Some(d.lastFired[id]) else None, d.slotCall, FiringsBy(d.log, id))
  }

  predicate IsEventRule(rules: Rules, id: string) {
    id in rules && rules[id].enabled && (rules[id].kind.RadioKeyup? || rules[id].kind.EncryptionSeen?)
  }

  predicate Once(order: seq<string>, id: string) {
    exists i :: 0 <= i < |order| && order[i] == id && forall j | 0 <= j < |order| && j != i :: order[j] != id
  }

  lemma RecordedShare(d: Data, f: Firing, id: string)
    ensures f.rule != id ==> ShareOf(Recorded(d, f), id) == ShareOf(d, id)
    ensures f.rule == id ==>
              ShareOf(Recorded(d, f), id) == ShareOf(d, id).(lastFired := Some(f.at), firings := FiringsBy(d.log, id) + [f])
  {
    assert (d.log + [f])[..|d.log|] == d.log;
    Seqs.Empty(FiringsBy(d.log, id));
  }

  lemma OtherEventRule(d: Data, rules: Rules, other: string, ev: Event, id: string)
    requires other in rules && other != id
    ensures ShareOf(EventRule(d, rules, other, ev), id) == ShareOf(d, id)
  {
    var (d1, f) := EvalEvent(d, rules, other, ev);
    assert ShareOf(d1, id) == ShareOf(d, id);
    if f.Some? {
      RecordedShare(d1, f.value, id);
    }
  }

  lemma {:induction false} OthersAreUnnoticed(d: Data, rules: Rules, order: seq<string>, ev: Event, id: string)
    requires Known(rules, order) && id !in order
    ensures ShareOf(EventRules(d, rules, order, ev), id) == ShareOf(d, id)
  {
    if order == [] {
    } else {
      var front, other := order[..|order| - 1], order[|order| - 1];
      OthersAreUnnoticed(d, rules, front, ev, id);
      OtherEventRule(EventRules(d, rules, front, ev), rules, other, ev, id);
    }
  }

  lemma SameShareSameRule(d: Data, e: Data, rules: Rules, id: string, ev: Event)
    requires id in rules && ShareOf(d, id) == ShareOf(e, id)
    ensures ShareOf(EventRule(d, rules, id, ev), id) == ShareOf(EventRule(e, rules, id, ev), id)
  {
    var (d1, f) := EvalEvent(d, rules, id, ev);
    var (e1, g) := EvalEvent(e, rules, id, ev);
    assert f == g && ShareOf(d1, id) == ShareOf(e1, id);
    if f.Some? {
      RecordedShare(d1, f.value, id);
      RecordedShare(e1, f.value, id);
    }
  }

  /** Through all rules, one rule's share moves as if it were the only rule. */
  lemma {:induction false} OwnTurnOnly(d: Data, rules: Rules, order: seq<string>, ev: Event, id: string)
    requires Known(rules, order) && IsEventRule(rules, id) && Once(order, id)
    ensures ShareOf(EventRules(d, rules, order, ev), id) == ShareOf(EventRule(d, rules, id, ev), id)
  {
    var front, last := order[..|order| - 1], order[|order| - 1];
    var i :| 0 <= i < |order| && order[i] == id && forall j | 0 <= j < |order| && j != i :: order[j] != id;
    if last == id {
      assert id !in front;
      OthersAreUnnoticed(d, rules, front, ev, id);
      SameShareSameRule(EventRules(d, rules, front, ev), d, rules, id, ev);
    } else {
      assert front[i] == id;
      OwnTurnOnly(d, rules, front, ev, id);
      OtherEventRule(EventRules(d, rules, front, ev), rules, last, ev, id);
    }
  }

  // ---- what an event rule reacts to ----

  /** The call of the last frame on a slot among the frames of the radios that `watched` picks. */
  function LastCall(evs: seq<Event>, watched: int -> bool, slot: int): Option<(int, int)> {
    if evs == [] then None
    else
      var b := evs[|evs| - 1].body;
      if b.VoiceCall? && b.slot == slot && watched(b.src) then Some((b.src, b.tgt))
      else LastCall(evs[..|evs| - 1], watched, slot)
  }

  function Among(ids: set<int>): int -> bool {
    src => src in ids
  }

  function RealRadio(): int -> bool {
    src => src != 0
  }

  /** Handling an event adds a firing of this rule to the record, or none. */
  predicate Adds(before: Data, after: Data, id: string, f: Option<Firing>) {
    FiringsBy(after.log, id) == FiringsBy(before.log, id) + if f.Some? then [f.value] else []
  }

  lemma OwnFiring(d: Data, rules: Rules, ev: Event, id: string)
    requires id in rules
    ensures Adds(d, EventRule(d, rules, id, ev), id, EvalEvent(d, rules, id, ev).1)
  {
    var (d1, f) := EvalEvent(d, rules, id, ev);
    assert d1.log == d.log;
    if f.Some? {
      assert f.value.rule == id;
      RecordedShare(d1, f.value, id);
    } else {
      Seqs.Empty(FiringsBy(d.log, id));
    }
  }

  lemma AddsWhatItReturns(rules: Rules, order: seq<string>, d: Data, ev: Event, id: string)
    requires Known(rules, order) && IsEventRule(rules, id) && Once(order, id)
    ensures Adds(d, EventRules(Cache(d, ev), rules, order, ev), id, EvalEvent(Cache(d, ev), rules, id, ev).1)
  {
    var cached := Cache(d, ev);
    OwnTurnOnly(cached, rules, order, ev, id);
    OwnFiring(cached, rules, ev, id);
    assert ShareOf(EventRules(cached, rules, order, ev), id).firings == ShareOf(EventRule(cached, rules, id, ev), id).firings;
    assert cached.log == d.log;
  }

  // ---- event rules in any interleaving ----

  /** How far the handling of the current event has come for one rule. */
  datatype Turn = Idle | Waiting | Taken

  function TurnOf(acts: seq<Action>, id: string): Turn {
    if acts == [] then Idle
    else
      match acts[|acts| - 1]
      case EventCache(_) => Waiting
      case EventDone => Idle
      case EventEval(rule) => if rule == id then Taken else TurnOf(acts[..|acts| - 1], id)
      case _ => TurnOf(acts[..|acts| - 1], id)
  }

  /** The event thread evaluates the rule once for each event, as OnEvent does; the tick thread, and the
      event thread's other rules, may do anything in between. */
  predicate OnceEach(acts: seq<Action>, id: string) {
    acts == [] ||
    (var front := acts[..|acts| - 1];
     && OnceEach(front, id)
     && (acts[|acts| - 1] == EventEval(id) ==> TurnOf(front, id) == Waiting)
     && (acts[|acts| - 1] == EventDone ==> TurnOf(front, id) == Taken))
  }

  /** The events the event thread has taken up, the current one included. */
  function EventsIn(acts: seq<Action>): seq<Event> {
    if acts == [] then []
    else EventsIn(acts[..|acts| - 1]) + if acts[|acts| - 1].EventCache? then [acts[|acts| - 1].ev] else []
  }

  /** Those the rule has been evaluated on. */
  function Judged(acts: seq<Action>, id: string): seq<Event> {
    var evs := EventsIn(acts);
    if TurnOf(acts, id) == Waiting && evs != [] then evs[..|evs| - 1] else evs
  }

  function Current(event: EventPc): Option<Event> {
    match event
    case EIdle => None
    case EHandling(ev) => Some(ev)
    case ERecording(ev, _) => Some(ev)
  }

  /** What the evaluator remembers for the rule: the last watched call of each slot, and the last call. */
  ghost predicate RemembersKeys(rules: Rules, id: string, keys: map<int, (int, int)>, judged: seq<Event>)
    requires id in rules
  {
    rules[id].kind.RadioKeyup? ==> forall slot ::
      LastCall(judged, Among(rules[id].kind.radioIds), slot) == if slot in keys then Some(keys[slot]) else None
  }

  ghost predicate RemembersCalls(calls: map<int, (int, int)>, evs: seq<Event>) {
    forall slot :: LastCall(evs, RealRadio(), slot) == if slot in calls then Some(calls[slot]) else None
  }

  ghost predicate Follows(rules: Rules, id: string, s: State, acts: seq<Action>)
    requires id in rules
  {
    var evs := EventsIn(acts);
    && RemembersKeys(rules, id, CallKeys(s.data, id), Judged(acts, id)) && RemembersCalls(s.data.slotCall, evs)
    && (Current(s.event).None? <==> TurnOf(acts, id) == Idle)
    && (Current(s.event).Some? ==> evs != [] && Current(s.event).value == evs[|evs| - 1])
  }

  lemma Traces(acts: seq<Action>, a: Action, id: string)
    ensures (acts + [a])[..|acts|] == acts && (acts + [a])[|acts|] == a
    ensures EventsIn(acts + [a]) == EventsIn(acts) + if a.EventCache? then [a.ev] else []
    ensures OnceEach(acts + [a], id) ==> OnceEach(acts, id)
  {
    assert (acts + [a])[..|acts|] == acts;
  }

  lemma LastCallSnoc(evs: seq<Event>, ev: Event, watched: int -> bool, slot: int)
    ensures LastCall(evs + [ev], watched, slot)
            == if ev.body.VoiceCall? && ev.body.slot == slot && watched(ev.body.src) then Some((ev.body.src, ev.body.tgt))
               else LastCall(evs, watched, slot)
  {
    assert (evs + [ev])[..|evs|] == evs;
  }

  lemma CallsAfterCache(d: Data, evs: seq<Event>, ev: Event)
    requires RemembersCalls(d.slotCall, evs)
    ensures RemembersCalls(Cache(d, ev).slotCall, evs + [ev])
  {
    forall slot
      ensures var calls := Cache(d, ev).slotCall;
              LastCall(evs + [ev], RealRadio(), slot) == if slot in calls then Some(calls[slot]) else None
    {
      LastCallSnoc(evs, ev, RealRadio(), slot);
    }
  }

  lemma FollowsCache(rules: Rules, id: string, s: State, acts: seq<Action>, ev: Event)
    requires id in rules && Follows(rules, id, s, acts) && Enabled(rules, s, EventCache(ev))
    ensures Follows(rules, id, Next(rules, s, EventCache(ev)), acts + [EventCache(ev)])
  {
    Traces(acts, EventCache(ev), id);
    var evs, longer := EventsIn(acts), EventsIn(acts + [EventCache(ev)]);
    assert longer[..|longer| - 1] == evs;
    CallsAfterCache(s.data, evs, ev);
    assert CallKeys(Cache(s.data, ev), id) == CallKeys(s.data, id);
  }

  lemma KeysAfter(d: Data, rules: Rules, id: string, ev: Event, slot: int)
    requires id in rules && rules[id].kind.RadioKeyup?
    ensures var keys, b := CallKeys(EvalEvent(d, rules, id, ev).0, id), ev.body;
            if b.VoiceCall? && b.slot == slot && b.src in rules[id].kind.radioIds
            then slot in keys && keys[slot] == (b.src, b.tgt)
            else (slot in keys <==> slot in CallKeys(d, id)) && (slot in keys ==> keys[slot] == CallKeys(d, id)[slot])
  {
  }

  lemma KeysAfterEval(d: Data, rules: Rules, id: string, ev: Event, judged: seq<Event>)
    requires id in rules && RemembersKeys(rules, id, CallKeys(d, id), judged)
    ensures RemembersKeys(rules, id, CallKeys(EvalEvent(d, rules, id, ev).0, id), judged + [ev])
  {
    if rules[id].kind.RadioKeyup? {
      var watched, keys := Among(rules[id].kind.radioIds), CallKeys(EvalEvent(d, rules, id, ev).0, id);
      forall slot
        ensures LastCall(judged + [ev], watched, slot) == if slot in keys then Some(keys[slot]) else None
      {
        LastCallSnoc(judged, ev, watched, slot);
        KeysAfter(d, rules, id, ev, slot);
      }
    }
  }

  /** The evaluation of its own turn puts the current event among the judged ones; other steps change nothing. */
  lemma JudgedNext(acts: seq<Action>, a: Action, id: string)
    requires !a.EventCache?
    ensures a == EventEval(id) && TurnOf(acts, id) == Waiting && EventsIn(acts) != [] ==>
              Judged(acts + [a], id) == Judged(acts, id) + [EventsIn(acts)[|EventsIn(acts)| - 1]]
    ensures a != EventEval(id) && (a == EventDone ==> TurnOf(acts, id) == Taken) ==> Judged(acts + [a], id) == Judged(acts, id)
    ensures EventsIn(acts + [a]) == EventsIn(acts)
    ensures TurnOf(acts + [a], id) == match a
                                      case EventDone => Idle
                                      case EventEval(rule) => if rule == id then Taken else TurnOf(acts, id)
                                      case _ => TurnOf(acts, id)
  {
    Traces(acts, a, id);
    Seqs.Empty(EventsIn(acts));
  }

  lemma FollowsOwnEval(rules: Rules, id: string, s: State, acts: seq<Action>)
    requires id in rules && Follows(rules, id, s, acts) && Enabled(rules, s, EventEval(id))
    requires TurnOf(acts, id) == Waiting
    ensures Follows(rules, id, Next(rules, s, EventEval(id)), acts + [EventEval(id)])
  {
    JudgedNext(acts, EventEval(id), id);
    KeysAfterEval(s.data, rules, id, s.event.ev, Judged(acts, id));
    EvalKeepsCalls(s.data, rules, id, s.event.ev);
  }

  lemma EvalKeepsCalls(d: Data, rules: Rules, rule: string, ev: Event)
    requires rule in rules
    ensures EvalEvent(d, rules, rule, ev).0.slotCall == d.slotCall
    ensures forall id | id != rule :: CallKeys(EvalEvent(d, rules, rule, ev).0, id) == CallKeys(d, id)
  {
  }

  /** The other steps change neither the rule's keys nor the slot calls, nor the event in hand but at its end. */
  lemma OthersKeepMemory(rules: Rules, id: string, s: State, a: Action)
    requires Enabled(rules, s, a) && !a.EventCache? && a != EventEval(id)
    ensures var t := Next(rules, s, a);
            && t.data.slotCall == s.data.slotCall && CallKeys(t.data, id) == CallKeys(s.data, id)
            && Current(t.event) == if a == EventDone then None else Current(s.event)
  {
    if a.EventEval? {
      EvalKeepsCalls(s.data, rules, a.id, s.event.ev);
    }
  }

  lemma FollowsOther(rules: Rules, id: string, s: State, acts: seq<Action>, a: Action)
    requires id in rules && Follows(rules, id, s, acts) && Enabled(rules, s, a)
    requires !a.EventCache? && a != EventEval(id) && (a == EventDone ==> TurnOf(acts, id) == Taken)
    ensures Follows(rules, id, Next(rules, s, a), acts + [a])
  {
    JudgedNext(acts, a, id);
    OthersKeepMemory(rules, id, s, a);
  }

  lemma {:induction false} RunFront(rules: Rules, s: State, acts: seq<Action>)
    requires acts != [] && Run(rules, s, acts)
    ensures var front := acts[..|acts| - 1];
            && Run(rules, s, front) && Enabled(rules, After(rules, s, front), acts[|acts| - 1])
            && After(rules, s, acts) == Next(rules, After(rules, s, front), acts[|acts| - 1])
    decreases |acts|
  {
    if |acts| == 1 {
      assert acts[..0] == [] && acts[1..] == [];
    } else {
      RunFront(rules, Next(rules, s, acts[0]), acts[1..]);
      assert acts[..|acts| - 1][1..] == acts[1..][..|acts| - 2];
    }
  }

  lemma {:induction false} AlwaysFollows(rules: Rules, acts: seq<Action>, id: string)
    requires id in rules && Run(rules, INIT, acts) && OnceEach(acts, id)
    ensures Follows(rules, id, After(rules, INIT, acts), acts)
    decreases |acts|
  {
    if acts == [] {
    } else {
      var front, a := acts[..|acts| - 1], acts[|acts| - 1];
      assert acts == front + [a];
      RunFront(rules, INIT, acts);
      AlwaysFollows(rules, front, id);
      var s := After(rules, INIT, front);
      if a.EventCache? {
        FollowsCache(rules, id, s, front, a.ev);
      } else if a == EventEval(id) {
        FollowsOwnEval(rules, id, s, front);
      } else {
        FollowsOther(rules, id, s, front, a);
      }
    }
  }

  /** The rule's turn has come for the current event. */
  ghost predicate TurnComes(rules: Rules, acts: seq<Action>, id: string) {
    && Run(rules, INIT, acts) && OnceEach(acts, id) && IsEventRule(rules, id)
    && TurnOf(acts, id) == Waiting && After(rules, INIT, acts).event.EHandling?
  }

  /** The rule's evaluation fires, and the firing is recorded by the event thread's next step, or it does not. */
  ghost predicate Reacts(rules: Rules, acts: seq<Action>, id: string, fires: bool)
    requires TurnComes(rules, acts, id)
  {
    var s := After(rules, INIT, acts);
    var ev := s.event.ev;
    Next(rules, s, EventEval(id)).event == if fires then ERecording(ev, Firing(id, When(ev))) else EHandling(ev)
  }

  /** In any run of the two threads, with tick blocks anywhere between the blocks of an event: a keyup rule
      fires on an event exactly when it is a watched frame whose call differs from that of the last
      watched frame on the slot, outside the cooldown. */
  lemma KeyupFiresOnChange(rules: Rules, acts: seq<Action>, id: string)
    requires TurnComes(rules, acts, id) && rules[id].kind.RadioKeyup?
    ensures var s, ids := After(rules, INIT, acts), rules[id].kind.radioIds;
            var ev := s.event.ev;
            && EventsIn(acts) == Judged(acts, id) + [ev]
            && Reacts(rules, acts, id,
                      && ev.body.VoiceCall? && ev.body.src in ids
                      && LastCall(Judged(acts, id), Among(ids), ev.body.slot) != Some((ev.body.src, ev.body.tgt))
                      && Rested(rules, s.data.log, id, When(ev)))
  {
    AlwaysFollows(rules, acts, id);
    CooldownIsRested(rules, acts, id, When(After(rules, INIT, acts).event.ev));
  }

  /** In any such run an encryption rule is joined to the call last heard on the slot, placeholders left out. */
  lemma EncryptionJoinsLastCall(rules: Rules, acts: seq<Action>, id: string)
    requires TurnComes(rules, acts, id) && rules[id].kind.EncryptionSeen?
    ensures var s, tgIds := After(rules, INIT, acts), rules[id].kind.tgIds;
            var ev := s.event.ev;
            Reacts(rules, acts, id,
                   && ev.body.Encryption?
                   && (tgIds == {} || (var call := LastCall(EventsIn(acts), RealRadio(), ev.body.slot);
                                       call.Some? && call.value.1 in tgIds))
                   && Rested(rules, s.data.log, id, When(ev)))
  {
    AlwaysFollows(rules, acts, id);
    CooldownIsRested(rules, acts, id, When(After(rules, INIT, acts).event.ev));
  }

  // ---- keyups and the calls of the dossier ----

  predicate IsVoiceOn(slot: int, ev: Event) {
    ev.body.VoiceCall? && ev.body.slot == slot
  }

  function FrameOf(ev: Event): Dossier.Frame
    requires ev.body.VoiceCall?
  {
    Dossier.Frame(Some(When(ev)), ev.body.slot, ev.body.src, ev.body.tgt)
  }

  /** The dossier's frames of one slot. */
  function FramesOn(slot: int, evs: seq<Event>): seq<Dossier.Frame> {
    if evs == [] then []
    else FramesOn(slot, evs[..|evs| - 1]) + if IsVoiceOn(slot, evs[|evs| - 1]) then [FrameOf(evs[|evs| - 1])] else []
  }

  /** Radio and talkgroup of the last session of a watched radio. */
  function LastSession(sessions: seq<Dossier.Session>, watched: int -> bool): Option<(int, int)> {
    if sessions == [] then None
    else
      var s := sessions[|sessions| - 1];
      if watched(s.src) then Some((s.src, s.tgt)) else LastSession(sessions[..|sessions| - 1], watched)
  }

  function Sessions(slot: int, evs: seq<Event>): seq<Dossier.Session> {
    Dossier.Flush(Dossier.Group(FramesOn(slot, evs)))
  }

  /** The frame starts a session of the dossier. */
  predicate Opens(slot: int, evs: seq<Event>, ev: Event)
    requires ev.body.VoiceCall?
  {
    var current := Dossier.Group(FramesOn(slot, evs)).current;
    !(current.Some? && Dossier.SameCall(current.value, FrameOf(ev)) && When(ev) - current.value.last <= Dossier.CALL_GAP)
  }

  lemma LastSessionSnoc(sessions: seq<Dossier.Session>, s: Dossier.Session, watched: int -> bool)
    ensures LastSession(sessions + [s], watched)
            == if watched(s.src) then Some((s.src, s.tgt)) else LastSession(sessions, watched)
  {
    assert (sessions + [s])[..|sessions|] == sessions;
  }

  lemma LastSessionStep(g: Dossier.Grouping, f: Dossier.Frame, watched: int -> bool)
    requires f.at.Some? && (g.current.None? ==> g.closed == [])
    ensures LastSession(Dossier.Flush(Dossier.Step(g, f)), watched)
            == if watched(f.src) then Some((f.src, f.tgt)) else LastSession(Dossier.Flush(g), watched)
  {
    var h := Dossier.Step(g, f);
    LastSessionSnoc(h.closed, h.current.value, watched);
    Seqs.Empty(g.closed);
    if g.current.Some? {
      LastSessionSnoc(g.closed, g.current.value, watched);
    }
  }

  lemma {:induction false} LastCallIsLastSession(evs: seq<Event>, watched: int -> bool, slot: int)
    ensures LastCall(evs, watched, slot) == LastSession(Sessions(slot, evs), watched)
  {
    if evs == [] {
    } else {
      var front, ev := evs[..|evs| - 1], evs[|evs| - 1];
      LastCallIsLastSession(front, watched, slot);
      Seqs.Empty(FramesOn(slot, front));
      if IsVoiceOn(slot, ev) {
        var frames := FramesOn(slot, front);
        assert (frames + [FrameOf(ev)])[..|frames|] == frames;
        Dossier.NothingClosedWithoutOpen(frames);
        LastSessionStep(Dossier.Group(frames), FrameOf(ev), watched);
      }
    }
  }

  /** In the dossier's terms: a keyup rule never fires inside a session, and fires on the frame that
      opens one exactly when the radio is watched, the latest session of a watched radio on the slot
      was another radio's or to another talkgroup, and the cooldown is over.  A repeated keyup by the
      same radio to the same talkgroup stays silent until another watched call comes between. */
  lemma KeyupFiresOnSession(rules: Rules, acts: seq<Action>, id: string)
    requires TurnComes(rules, acts, id) && rules[id].kind.RadioKeyup?
    requires After(rules, INIT, acts).event.ev.body.VoiceCall?
    ensures var s, ids, before := After(rules, INIT, acts), rules[id].kind.radioIds, Judged(acts, id);
            var ev := s.event.ev;
            Reacts(rules, acts, id,
                   && Opens(ev.body.slot, before, ev) && ev.body.src in ids
                   && LastSession(Sessions(ev.body.slot, before), Among(ids)) != Some((ev.body.src, ev.body.tgt))
                   && Rested(rules, s.data.log, id, When(ev)))
  {
    var ids, before, ev := rules[id].kind.radioIds, Judged(acts, id), After(rules, INIT, acts).event.ev;
    KeyupFiresOnChange(rules, acts, id);
    LastCallIsLastSession(before, Among(ids), ev.body.slot);
    var g := Dossier.Group(FramesOn(ev.body.slot, before));
    if g.current.Some? {
      LastSessionSnoc(g.closed, g.current.value, Among(ids));
    }
  }

  /** An instance: the same radio calls the same talkgroup again much later, outside the cooldown.  The dossier
      has two sessions, the rule fires once. */
  lemma RepeatedKeyupIsSilent(rules: Rules, id: string, first: Event, second: Event) returns (acts: seq<Action>)
    requires IsEventRule(rules, id) && rules[id].kind.RadioKeyup?
    requires first.body.VoiceCall? && first.body.src in rules[id].kind.radioIds
    requires second.body == first.body && Dossier.CALL_GAP < When(second) - When(first)
    requires rules[id].cooldown <= When(second) - When(first)
    ensures Run(rules, INIT, acts) && OnceEach(acts, id) && EventsIn(acts) == [first, second]
    ensures After(rules, INIT, acts).event == EIdle && After(rules, INIT, acts).data.log == [Firing(id, When(first))]
    ensures |Sessions(first.body.slot, EventsIn(acts))| == 2
  {
    var s: State;
    acts, s := [], INIT;
    acts, s := NextStep(rules, id, acts, s, EventCache(first));
    acts, s := NextStep(rules, id, acts, s, EventEval(id));
    acts, s := NextStep(rules, id, acts, s, EventRecord);
    acts, s := NextStep(rules, id, acts, s, EventDone);
    assert s.data.log == [Firing(id, When(first))];
    acts, s := NextStep(rules, id, acts, s, EventCache(second));
    acts, s := NextStep(rules, id, acts, s, EventEval(id));
    acts, s := NextStep(rules, id, acts, s, EventDone);
    TwoSessions(first, second);
  }

  lemma NextStep(rules: Rules, id: string, acts: seq<Action>, s: State, a: Action) returns (longer: seq<Action>, t: State)
    requires Traced(rules, INIT, acts, s) && Enabled(rules, s, a) && OnceEach(acts, id)
    requires a == EventEval(id) ==> TurnOf(acts, id) == Waiting
    requires a == EventDone ==> TurnOf(acts, id) == Taken
    ensures longer == acts + [a] && t == Next(rules, s, a) && Traced(rules, INIT, longer, t) && OnceEach(longer, id)
    ensures EventsIn(longer) == EventsIn(acts) + if a.EventCache? then [a.ev] else []
    ensures TurnOf(longer, id) == match a
                                  case EventCache(_) => Waiting
                                  case EventDone => Idle
                                  case EventEval(rule) => if rule == id then Taken else TurnOf(acts, id)
                                  case _ => TurnOf(acts, id)
  {
    Trace(rules, INIT, acts, s, a);
    Traces(acts, a, id);
    longer, t := acts + [a], Next(rules, s, a);
  }

  lemma TwoSessions(first: Event, second: Event)
    requires first.body.VoiceCall? && second.body == first.body && Dossier.CALL_GAP < When(second) - When(first)
    ensures |Sessions(first.body.slot, [first, second])| == 2
  {
    var slot, f, g := first.body.slot, FrameOf(first), FrameOf(second);
    assert [first, second][..1] == [first] && [first][..0] == [];
    assert FramesOn(slot, [first]) == [f];
    assert FramesOn(slot, [first, second]) == [f, g];
    assert [f, g][..1] == [f] && [f][..0] == [];
    assert Dossier.Group([f]) == Dossier.Grouping([], Some(Dossier.Opened(f)));
  }
}
