/** The alert evaluator (backend/alerts.py).  Events come from one thread, ticks from another; each
    `with self._lock` block is one atomic step, and the two threads interleave between blocks. */
module Alerts {
  import opened Prelude
  import opened Events

  datatype RuleKind =
    | RadioKeyup(radioIds: set<int>)
    | EncryptionSeen(tgIds: set<int>)
    | CcSilent(timeout: int)
    | QualitySpike

  /** Durations are in microseconds; cooldowns are validated to be non-negative. */
  datatype Rule = Rule(enabled: bool, cooldown: nat, kind: RuleKind)

  /** The installed rules by id. */
  type Rules = map<string, Rule>

  datatype Firing = Firing(rule: string, at: int)

  /** The order of control-channel events, cc_silent latches and recorded firings. */
  datatype Mark = ControlChannel | Latched(rule: string) | Fired(firing: Firing)

  /** The state the lock protects.  `log` is every firing recorded; the ring of recent firings is its end. */
  datatype Data = Data(
    lastFired: map<string, int>,
    lastCallKey: map<string, map<int, (int, int)>>,
    slotCall: map<int, (int, int)>,
    lastCcAt: Option<int>,
    ccFired: set<string>,
    log: seq<Firing>,
    marks: seq<Mark>)

  const START := Data(map[], map[], map[], None, {}, [], [])

  function CooldownOk(d: Data, rules: Rules, id: string, when: int): bool
    requires id in rules
  {
    id !in d.lastFired || rules[id].cooldown <= when - d.lastFired[id]
  }

  predicate IsControlChannel(b: Body) {
    b.SiteInfo? || b.LsnStatus? || b.ChannelStatus?
  }

  /** The first block of on_event. */
  function Cache(d: Data, ev: Event): Data {
    var d1 := if ev.body.VoiceCall? && ev.body.src != 0
              then d.(slotCall := d.slotCall[ev.body.slot := (ev.body.src, ev.body.tgt)]) else d;
    if IsControlChannel(ev.body)
    then d1.(lastCcAt := Some(When(ev)), ccFired := {}, marks := d1.marks + [ControlChannel]) else d1
  }

  function CallKeys(d: Data, id: string): map<int, (int, int)> {
    if id in d.lastCallKey then d.lastCallKey[id] else map[]
  }

  /** _evaluate_event: the state after it, and the firing it returns. */
  function EvalEvent(d: Data, rules: Rules, id: string, ev: Event): (Data, Option<Firing>)
    requires id in rules
  {
    var fire := if CooldownOk(d, rules, id, When(ev)) then Some(Firing(id, When(ev))) else None;
    match rules[id].kind
    case RadioKeyup(radioIds) =>
      if !ev.body.VoiceCall? || ev.body.src !in radioIds then (d, None)
      else
        var keys, key := CallKeys(d, id), (ev.body.src, ev.body.tgt);
        if ev.body.slot in keys && keys[ev.body.slot] == key then (d, None)
        else (d.(lastCallKey := d.lastCallKey[id := keys[ev.body.slot := key]]), fire)
    case EncryptionSeen(tgIds) =>
      if !ev.body.Encryption? then (d, None)
      else if tgIds != {} && (ev.body.slot !in d.slotCall || d.slotCall[ev.body.slot].1 !in tgIds) then (d, None)
      else (d, fire)
    case _ => (d, None)
  }

  function Recorded(d: Data, f: Firing): Data {
    d.(lastFired := d.lastFired[f.rule := f.at], log := d.log + [f], marks := d.marks + [Fired(f)])
  }

  /** The second block of the cc_silent check: latch and fire, or give up. */
  function Latch(d: Data, id: string, now: int): (Data, Option<Firing>) {
    if id in d.ccFired then (d, None)
    else (d.(ccFired := d.ccFired + {id}, marks := d.marks + [Latched(id)]), Some(Firing(id, now)))
  }

  // ---- the two threads ----

  datatype EventPc = EIdle | EHandling(ev: Event) | ERecording(ev: Event, firing: Firing)

  datatype TickPc =
    | TIdle
    | TTicking(now: int)
    | TCcChecked(now: int, rule: string, seenCcAt: int)   // between the two blocks of cc_silent
    | TMeasuring(now: int, rule: string)                  // the slow quality query, without the lock
    | TRecording(now: int, firing: Firing)

  datatype State = State(data: Data, event: EventPc, tick: TickPc)

  datatype Action =
    | EventCache(ev: Event) | EventEval(id: string) | EventRecord | EventDone
    | TickStart(now: int) | TickCcCheck(id: string) | TickCcLatch
    | TickQualityCheck(id: string) | TickQualityResult(spike: bool) | TickRecord | TickDone

  predicate Enabled(rules: Rules, s: State, a: Action) {
    match a
    case EventCache(_) => s.event.EIdle?
    case EventEval(id) => s.event.EHandling? && id in rules && rules[id].enabled
    case EventRecord => s.event.ERecording?
    case EventDone => s.event.EHandling?
    case TickStart(_) => s.tick.TIdle?
    case TickCcCheck(id) => s.tick.TTicking? && id in rules && rules[id].enabled && rules[id].kind.CcSilent?
    case TickCcLatch => s.tick.TCcChecked?
    case TickQualityCheck(id) => s.tick.TTicking? && id in rules && rules[id].enabled && rules[id].kind.QualitySpike?
    case TickQualityResult(_) => s.tick.TMeasuring?
    case TickRecord => s.tick.TRecording?
    case TickDone => s.tick.TTicking?
  }

  function Next(rules: Rules, s: State, a: Action): State
    requires Enabled(rules, s, a)
  {
    match a
    case EventCache(ev) => s.(data := Cache(s.data, ev), event := EHandling(ev))
    case EventEval(id) =>
      var (d, f) := EvalEvent(s.data, rules, id, s.event.ev);
      s.(data := d, event := if f.Some? then ERecording(s.event.ev, f.value) else s.event)
    case EventRecord => s.(data := Recorded(s.data, s.event.firing), event := EHandling(s.event.ev))
    case EventDone => s.(event := EIdle)
    case TickStart(now) => s.(tick := TTicking(now))
    case TickCcCheck(id) =>
      if id in s.data.ccFired || s.data.lastCcAt.None?
         || s.tick.now - s.data.lastCcAt.value < rules[id].kind.timeout then s
      else s.(tick := TCcChecked(s.tick.now, id, s.data.lastCcAt.value))
    case TickCcLatch =>
      var (d, f) := Latch(s.data, s.tick.rule, s.tick.now);
      s.(data := d, tick := if f.Some? then TRecording(s.tick.now, f.value) else TTicking(s.tick.now))
    case TickQualityCheck(id) =>
      if CooldownOk(s.data, rules, id, s.tick.now) then s.(tick := TMeasuring(s.tick.now, id)) else s
    case TickQualityResult(spike) =>
      s.(tick := if spike then TRecording(s.tick.now, Firing(s.tick.rule, s.tick.now)) else TTicking(s.tick.now))
    case TickRecord => s.(data := Recorded(s.data, s.tick.firing), tick := TTicking(s.tick.now))
    case TickDone => s.(tick := TIdle)
  }

  /** The steps of the event thread; the others are the tick thread's. */
  predicate EventStep(a: Action) {
    a.EventCache? || a.EventEval? || a.EventRecord? || a.EventDone?
  }

  predicate Run(rules: Rules, s: State, acts: seq<Action>)
    decreases |acts|
  {
    acts == [] || (Enabled(rules, s, acts[0]) && Run(rules, Next(rules, s, acts[0]), acts[1..]))
  }

  function After(rules: Rules, s: State, acts: seq<Action>): State
    requires Run(rules, s, acts)
    decreases |acts|
  {
    if acts == [] then s else After(rules, Next(rules, s, acts[0]), acts[1..])
  }

  const INIT := State(START, EIdle, TIdle)

  lemma {:induction false} RunSnoc(rules: Rules, s: State, acts: seq<Action>, a: Action)
    requires Run(rules, s, acts) && Enabled(rules, After(rules, s, acts), a)
    ensures Run(rules, s, acts + [a]) && After(rules, s, acts + [a]) == Next(rules, After(rules, s, acts), a)
    decreases |acts|
  {
    if acts == [] {
      assert (acts + [a])[1..] == [];
    } else {
      RunSnoc(rules, Next(rules, s, acts[0]), acts[1..], a);
      assert (acts + [a])[1..] == acts[1..] + [a];
    }
  }

  /** Some steps lead from one state to another. */
  ghost predicate Traced(rules: Rules, start: State, acts: seq<Action>, now: State) {
    Run(rules, start, acts) && After(rules, start, acts) == now
  }

  lemma Trace(rules: Rules, start: State, acts: seq<Action>, now: State, a: Action)
    requires Traced(rules, start, acts, now) && Enabled(rules, now, a)
    ensures Traced(rules, start, acts + [a], Next(rules, now, a))
  {
    RunSnoc(rules, start, acts, a);
  }

  // ---- rate limits ----

  predicate RateLimited(rules: Rules, id: string) {
    id in rules && !rules[id].kind.CcSilent?
  }

  /** Any two firings of one rate-limited rule are at least its cooldown apart, the later recorded later. */
  predicate Spaced(rules: Rules, log: seq<Firing>) {
    forall i, j | 0 <= i < j < |log| && log[i].rule == log[j].rule && RateLimited(rules, log[i].rule) ::
      rules[log[i].rule].cooldown <= log[j].at - log[i].at
  }

  /** A firing about to be recorded still respects the cooldown when its turn comes, because only
      the thread that evaluates a rule records it. */
  predicate Due(rules: Rules, d: Data, f: Firing) {
    f.rule in rules && (RateLimited(rules, f.rule) ==> CooldownOk(d, rules, f.rule, f.at))
  }

  predicate Inv(rules: Rules, s: State) {
    && Spaced(rules, s.data.log)
    && (forall i | 0 <= i < |s.data.log| :: s.data.log[i].rule in rules && s.data.log[i].rule in s.data.lastFired)
    && (forall i | 0 <= i < |s.data.log| && RateLimited(rules, s.data.log[i].rule) ::
          s.data.log[i].at <= s.data.lastFired[s.data.log[i].rule])
    && (s.event.ERecording? ==>
          Due(rules, s.data, s.event.firing)
          && (rules[s.event.firing.rule].kind.RadioKeyup? || rules[s.event.firing.rule].kind.EncryptionSeen?))
    && (s.tick.TMeasuring? ==>
          s.tick.rule in rules && rules[s.tick.rule].kind.QualitySpike?
          && CooldownOk(s.data, rules, s.tick.rule, s.tick.now))
    && (s.tick.TCcChecked? ==> s.tick.rule in rules && rules[s.tick.rule].kind.CcSilent?)
    && (s.tick.TRecording? ==>
          Due(rules, s.data, s.tick.firing)
          && (rules[s.tick.firing.rule].kind.QualitySpike? || rules[s.tick.firing.rule].kind.CcSilent?))
  }

  lemma RecordKeepsSpaced(rules: Rules, d: Data, f: Firing)
    requires Spaced(rules, d.log) && Due(rules, d, f)
    requires forall i | 0 <= i < |d.log| :: d.log[i].rule in d.lastFired
    requires forall i | 0 <= i < |d.log| && RateLimited(rules, d.log[i].rule) ::
               d.log[i].at <= d.lastFired[d.log[i].rule]
    ensures Spaced(rules, Recorded(d, f).log)
    ensures forall i | 0 <= i <= |d.log| && RateLimited(rules, Recorded(d, f).log[i].rule) ::
              Recorded(d, f).log[i].at <= Recorded(d, f).lastFired[Recorded(d, f).log[i].rule]
  {
    var log := Recorded(d, f).log;
    forall i, j | 0 <= i < j < |log| && log[i].rule == log[j].rule && RateLimited(rules, log[i].rule)
      ensures rules[log[i].rule].cooldown <= log[j].at - log[i].at
    {
      assert log[i] == d.log[i];
    }
  }

  lemma InvRecord(rules: Rules, s: State, a: Action)
    requires Inv(rules, s) && Enabled(rules, s, a) && (a.EventRecord? || a.TickRecord?)
    ensures Inv(rules, Next(rules, s, a))
  {
    var f := if a.EventRecord? then s.event.firing else s.tick.firing;
    RecordKeepsSpaced(rules, s.data, f);
    var log := Recorded(s.data, f).log;
    assert forall i | 0 <= i < |s.data.log| :: log[i] == s.data.log[i];
  }

  lemma InvEvent(rules: Rules, s: State, a: Action)
    requires Inv(rules, s) && Enabled(rules, s, a) && EventStep(a) && !a.EventRecord?
    ensures Inv(rules, Next(rules, s, a))
  {
    var s' := Next(rules, s, a);
    assert s'.data.log == s.data.log && s'.data.lastFired == s.data.lastFired;
  }

  lemma InvTick(rules: Rules, s: State, a: Action)
    requires Inv(rules, s) && Enabled(rules, s, a)
    requires !EventStep(a) && !a.TickRecord?
    ensures Inv(rules, Next(rules, s, a))
  {
    var s' := Next(rules, s, a);
    assert s'.data.log == s.data.log && s'.data.lastFired == s.data.lastFired;
  }

  lemma InvStep(rules: Rules, s: State, a: Action)
    requires Inv(rules, s) && Enabled(rules, s, a)
    ensures Inv(rules, Next(rules, s, a))
  {
    if a.EventRecord? || a.TickRecord? {
      InvRecord(rules, s, a);
    } else if EventStep(a) {
      InvEvent(rules, s, a);
    } else {
      InvTick(rules, s, a);
    }
  }

  lemma {:induction false} InvAlways(rules: Rules, s: State, acts: seq<Action>)
    requires Inv(rules, s) && Run(rules, s, acts)
    ensures Inv(rules, After(rules, s, acts))
    decreases |acts|
  {
    if acts == [] {
    } else {
      InvStep(rules, s, acts[0]);
      InvAlways(rules, Next(rules, s, acts[0]), acts[1..]);
    }
  }

  /** The times at which a rule fired within [from, from + length], in the order recorded. */
  function FiredIn(log: seq<Firing>, id: string, from: int, length: nat): seq<int> {
    if log == [] then []
    else FiredIn(log[..|log| - 1], id, from, length) +
         var f := log[|log| - 1];
         if f.rule == id && from <= f.at <= from + length then [f.at] else []
  }

  lemma {:induction false} FiredAreInLog(log: seq<Firing>, id: string, from: int, length: nat, t: int)
    requires t in FiredIn(log, id, from, length)
    ensures Firing(id, t) in log && from <= t <= from + length
  {
    var front, f := log[..|log| - 1], log[|log| - 1];
    if t in FiredIn(front, id, from, length) {
      FiredAreInLog(front, id, from, length, t);
      assert forall g | g in front :: g in log;
    }
  }

  lemma {:induction false} SpacedFirings(rules: Rules, log: seq<Firing>, id: string, from: int, length: nat)
    requires RateLimited(rules, id) && Spaced(rules, log)
    ensures var ts := FiredIn(log, id, from, length);
            forall i | 0 < i < |ts| :: rules[id].cooldown <= ts[i] - ts[i - 1]
  {
    if log == [] {
    } else {
      var front, f := log[..|log| - 1], log[|log| - 1];
      SpacedFirings(rules, front, id, from, length);
      var earlier := FiredIn(front, id, from, length);
      if f.rule == id && earlier != [] {
        var last := earlier[|earlier| - 1];
        FiredAreInLog(front, id, from, length, last);
        var i :| 0 <= i < |front| && front[i] == Firing(id, last);
        assert log[i] == front[i] && log[|log| - 1] == f;
        assert rules[id].cooldown <= f.at - last;
      }
    }
  }

  lemma {:induction false} SpanGrows(ts: seq<int>, cooldown: nat)
    requires ts != [] && forall i | 0 < i < |ts| :: cooldown <= ts[i] - ts[i - 1]
    ensures (|ts| - 1) * cooldown <= ts[|ts| - 1] - ts[0]
  {
    if |ts| == 1 {
    } else {
      var front := ts[..|ts| - 1];
      SpanGrows(front, cooldown);
      assert (|ts| - 1) * cooldown == (|front| - 1) * cooldown + cooldown;
    }
  }

  /** Over every interleaving of the two threads, any window of length T holds at most
      T / cooldown + 1 firings of a keyup, encryption or quality rule. */
  lemma RateHoldsInEveryWindow(rules: Rules, acts: seq<Action>, id: string, from: int, length: nat)
    requires Run(rules, INIT, acts) && RateLimited(rules, id) && 0 < rules[id].cooldown
    ensures |FiredIn(After(rules, INIT, acts).data.log, id, from, length)| <= length / rules[id].cooldown + 1
  {
    InvAlways(rules, INIT, acts);
    var log, c := After(rules, INIT, acts).data.log, rules[id].cooldown;
    SpacedFirings(rules, log, id, from, length);
    var ts := FiredIn(log, id, from, length);
    if ts != [] {
      SpanGrows(ts, c);
      FiredAreInLog(log, id, from, length, ts[0]);
      FiredAreInLog(log, id, from, length, ts[|ts| - 1]);
      AtMostQuotient(|ts| - 1, c, length);
    }
  }

  lemma AtMostQuotient(n: nat, c: nat, length: nat)
    requires 0 < c && n * c <= length
    ensures n <= length / c
  {
    var q := length / c;
    assert length < (q + 1) * c;
    ProductGrows(q + 1, n, c);
  }

  lemma ProductGrows(a: nat, b: nat, c: nat)
    ensures a <= b ==> a * c <= b * c
  {
  }

  // ---- the cooldown in terms of the record ----

  /** Every firing of the rule recorded so far lies at least its cooldown before. */
  predicate Rested(rules: Rules, log: seq<Firing>, id: string, when: int)
    requires id in rules
  {
    forall i | 0 <= i < |log| && log[i].rule == id :: rules[id].cooldown <= when - log[i].at
  }

  /** The time the last recorded firing of the rule carries. */
  function LastFiring(log: seq<Firing>, id: string): Option<int> {
    if log == [] then None
    else if log[|log| - 1].rule == id then Some(log[|log| - 1].at)
    else LastFiring(log[..|log| - 1], id)
  }

  ghost predicate ClockIsRecord(d: Data) {
    forall id :: LastFiring(d.log, id) == if id in d.lastFired then Some(d.lastFired[id]) else None
  }

  lemma ClockAfterRecord(d: Data, f: Firing)
    requires ClockIsRecord(d)
    ensures ClockIsRecord(Recorded(d, f))
  {
    assert (d.log + [f])[..|d.log|] == d.log;
  }

  lemma ClockStep(rules: Rules, s: State, a: Action)
    requires ClockIsRecord(s.data) && Enabled(rules, s, a)
    ensures ClockIsRecord(Next(rules, s, a).data)
  {
    if a.EventRecord? {
      ClockAfterRecord(s.data, s.event.firing);
    } else if a.TickRecord? {
      ClockAfterRecord(s.data, s.tick.firing);
    } else {
      assert Next(rules, s, a).data.log == s.data.log && Next(rules, s, a).data.lastFired == s.data.lastFired;
    }
  }

  lemma {:induction false} ClockIsAlwaysRecord(rules: Rules, s: State, acts: seq<Action>)
    requires ClockIsRecord(s.data) && Run(rules, s, acts)
    ensures ClockIsRecord(After(rules, s, acts).data)
    decreases |acts|
  {
    if acts == [] {
    } else {
      ClockStep(rules, s, acts[0]);
      ClockIsAlwaysRecord(rules, Next(rules, s, acts[0]), acts[1..]);
    }
  }

  lemma {:induction false} LastFiringIsLast(log: seq<Firing>, id: string)
    ensures LastFiring(log, id).None? <==> forall i | 0 <= i < |log| :: log[i].rule != id
    ensures LastFiring(log, id).Some? ==>
              exists i :: 0 <= i < |log| && log[i] == Firing(id, LastFiring(log, id).value)
                          && forall j | i < j < |log| :: log[j].rule != id
  {
    if log == [] {
    } else {
      var front, n := log[..|log| - 1], |log| - 1;
      LastFiringIsLast(front, id);
      if log[n].rule == id {
        assert log[n] == Firing(id, log[n].at);
      } else if LastFiring(log, id).Some? {
        var i :| 0 <= i < |front| && front[i] == Firing(id, LastFiring(log, id).value)
                 && forall j | i < j < |front| :: front[j].rule != id;
        assert log[i] == front[i] && forall j | i < j < n :: log[j] == front[j];
      }
    }
  }

  /** In every reachable state the cooldown test of a rate-limited rule is about the whole record. */
  lemma CooldownIsRested(rules: Rules, acts: seq<Action>, id: string, when: int)
    requires Run(rules, INIT, acts) && RateLimited(rules, id)
    ensures var d := After(rules, INIT, acts).data;
            CooldownOk(d, rules, id, when) <==> Rested(rules, d.log, id, when)
  {
    var d := After(rules, INIT, acts).data;
    InvAlways(rules, INIT, acts);
    ClockIsAlwaysRecord(rules, INIT, acts);
    LastFiringIsLast(d.log, id);
    if id in d.lastFired {
      var n :| 0 <= n < |d.log| && d.log[n] == Firing(id, d.lastFired[id]);
    }
  }

  /** In any run a quality rule fires on a tick exactly when every firing recorded so far lies at least its
      cooldown back and the rate measured for it is a spike; events in between change nothing. */
  lemma QualityFiresIff(rules: Rules, acts: seq<Action>, id: string, between: seq<Action>, spike: bool)
    requires Run(rules, INIT, acts) && RateLimited(rules, id) && Enabled(rules, After(rules, INIT, acts), TickQualityCheck(id))
    requires Run(rules, Next(rules, After(rules, INIT, acts), TickQualityCheck(id)), between)
    requires forall i | 0 <= i < |between| :: EventStep(between[i])
    ensures var s := After(rules, INIT, acts);
            var t := After(rules, Next(rules, s, TickQualityCheck(id)), between);
            if Rested(rules, s.data.log, id, s.tick.now)
            then Enabled(rules, t, TickQualityResult(spike))
                 && (Next(rules, t, TickQualityResult(spike)).tick
                     == if spike then TRecording(s.tick.now, Firing(id, s.tick.now)) else TTicking(s.tick.now))
            else t.tick == TTicking(s.tick.now)
  {
    var s := After(rules, INIT, acts);
    CooldownIsRested(rules, acts, id, s.tick.now);
    EventsKeepTick(rules, Next(rules, s, TickQualityCheck(id)), between);
  }

  lemma {:induction false} EventsKeepTick(rules: Rules, s: State, acts: seq<Action>)
    requires Run(rules, s, acts) && forall i | 0 <= i < |acts| :: EventStep(acts[i])
    ensures After(rules, s, acts).tick == s.tick
    decreases |acts|
  {
    if acts == [] {
    } else {
      assert EventStep(acts[0]);
      EventsKeepTick(rules, Next(rules, s, acts[0]), acts[1..]);
    }
  }

  /** Three kinds of event are a sign of the control channel: they restart its clock and reopen the latches. */
  lemma HeartbeatsAreThreeTypes(d: Data, ev: Event)
    ensures if TypeName(ev.body) in {"site_info", "lsn_status", "channel_status"}
            then Cache(d, ev).lastCcAt == Some(When(ev)) && Cache(d, ev).ccFired == {}
            else Cache(d, ev).lastCcAt == d.lastCcAt && Cache(d, ev).ccFired == d.ccFired
    ensures IsControlChannel(ev.body) <==> TypeName(ev.body) in {"site_info", "lsn_status", "channel_status"}
  {
  }
}
