/** The cc_silent rule on two threads (backend/alerts.py): how often it fires in one silence, and
    whether its alarm is still true when it is raised. */
module AlertSilence {
  import opened Prelude
  import opened Events
  import opened Alerts

  // ---- the order of latches, firings and control-channel events ----

  predicate IsFiringOf(m: Mark, id: string) {
    m.Fired? && m.firing.rule == id
  }

  /** The rule took its latch after the last control-channel event. */
  predicate LatchedSinceCc(marks: seq<Mark>, id: string) {
    marks != [] && marks[|marks| - 1] != ControlChannel &&
    (marks[|marks| - 1] == Latched(id) || LatchedSinceCc(marks[..|marks| - 1], id))
  }

  /** The rule took its latch and its firing is not recorded yet. */
  predicate Owed(marks: seq<Mark>, id: string) {
    marks != [] && !IsFiringOf(marks[|marks| - 1], id) &&
    (marks[|marks| - 1] == Latched(id) || Owed(marks[..|marks| - 1], id))
  }

  /** What may come next: a latch only while the last one is used up and a control-channel event has
      come since, a firing only after its latch. */
  predicate Allowed(before: seq<Mark>, m: Mark, id: string) {
    && (m == Latched(id) ==> !LatchedSinceCc(before, id) && !Owed(before, id))
    && (IsFiringOf(m, id) ==> Owed(before, id))
  }

  ghost predicate Orderly(marks: seq<Mark>, id: string) {
    forall n | 0 <= n < |marks| :: Allowed(marks[..n], marks[n], id)
  }

  function FiringsOf(marks: seq<Mark>): seq<Firing> {
    if marks == [] then []
    else FiringsOf(marks[..|marks| - 1]) + if marks[|marks| - 1].Fired? then [marks[|marks| - 1].firing] else []
  }

  lemma Snoc(marks: seq<Mark>, m: Mark, id: string)
    ensures LatchedSinceCc(marks + [m], id)
            <==> m != ControlChannel && (m == Latched(id) || LatchedSinceCc(marks, id))
    ensures Owed(marks + [m], id) <==> !IsFiringOf(m, id) && (m == Latched(id) || Owed(marks, id))
    ensures FiringsOf(marks + [m]) == FiringsOf(marks) + if m.Fired? then [m.firing] else []
  {
    assert (marks + [m])[..|marks|] == marks;
  }

  lemma OrderlySnoc(marks: seq<Mark>, m: Mark, id: string)
    requires Orderly(marks, id) && Allowed(marks, m, id)
    ensures Orderly(marks + [m], id)
  {
    var longer := marks + [m];
    forall n | 0 <= n < |longer| ensures Allowed(longer[..n], longer[n], id) {
      assert longer[..n] == if n < |marks| then marks[..n] else marks;
    }
  }

  // ---- what the machine keeps ----

  /** `owed`: the tick thread holds a firing of the rule that it has not recorded yet. */
  ghost predicate SilenceHolds(d: Data, owed: bool, id: string) {
    && Orderly(d.marks, id) && d.log == FiringsOf(d.marks)
    && (id in d.ccFired <==> LatchedSinceCc(d.marks, id))
    && (Owed(d.marks, id) <==> owed)
    && (ControlChannel in d.marks ==> d.lastCcAt.Some?)
  }

  predicate Pending(tick: TickPc, id: string) {
    tick.TRecording? && tick.firing.rule == id
  }

  ghost predicate SilenceInv(s: State, id: string) {
    SilenceHolds(s.data, Pending(s.tick, id), id)
  }

  predicate IsSilenceRule(rules: Rules, id: string) {
    id in rules && rules[id].kind.CcSilent?
  }

  lemma HoldsAfterRecord(d: Data, f: Firing, owed: bool, id: string)
    requires SilenceHolds(d, owed, id) && (f.rule == id ==> owed)
    ensures SilenceHolds(Recorded(d, f), owed && f.rule != id, id)
  {
    Snoc(d.marks, Fired(f), id);
    OrderlySnoc(d.marks, Fired(f), id);
  }

  lemma HoldsAfterCache(d: Data, ev: Event, owed: bool, id: string)
    requires SilenceHolds(d, owed, id)
    ensures SilenceHolds(Cache(d, ev), owed, id)
  {
    if IsControlChannel(ev.body) {
      Snoc(d.marks, ControlChannel, id);
      OrderlySnoc(d.marks, ControlChannel, id);
    }
  }

  lemma HoldsAfterLatch(d: Data, rule: string, now: int, id: string)
    requires SilenceHolds(d, false, id)
    ensures var (d', f) := Latch(d, rule, now);
            SilenceHolds(d', f.Some? && rule == id, id)
  {
    if rule !in d.ccFired {
      Snoc(d.marks, Latched(rule), id);
      OrderlySnoc(d.marks, Latched(rule), id);
    }
  }

  lemma HoldsAfterEval(d: Data, rules: Rules, rule: string, ev: Event, owed: bool, id: string)
    requires SilenceHolds(d, owed, id) && rule in rules
    ensures SilenceHolds(EvalEvent(d, rules, rule, ev).0, owed, id)
  {
    var d' := EvalEvent(d, rules, rule, ev).0;
    assert d' == d.(lastCallKey := d'.lastCallKey);
  }

  lemma SilenceStep(rules: Rules, s: State, a: Action, id: string)
    requires Inv(rules, s) && SilenceInv(s, id) && IsSilenceRule(rules, id) && Enabled(rules, s, a)
    ensures SilenceInv(Next(rules, s, a), id)
  {
    var owed := Pending(s.tick, id);
    match a
    case EventCache(ev) => HoldsAfterCache(s.data, ev, owed, id);
    case EventEval(rule) => HoldsAfterEval(s.data, rules, rule, s.event.ev, owed, id);
    case EventRecord => HoldsAfterRecord(s.data, s.event.firing, owed, id);
    case TickCcLatch => HoldsAfterLatch(s.data, s.tick.rule, s.tick.now, id);
    case TickRecord => HoldsAfterRecord(s.data, s.tick.firing, owed, id);
    case _ =>
  }

  lemma {:induction false} SilenceAlways(rules: Rules, s: State, acts: seq<Action>, id: string)
    requires Inv(rules, s) && SilenceInv(s, id) && IsSilenceRule(rules, id) && Run(rules, s, acts)
    ensures Inv(rules, After(rules, s, acts)) && SilenceInv(After(rules, s, acts), id)
    decreases |acts|
  {
    if acts == [] {
    } else {
      InvStep(rules, s, acts[0]);
      SilenceStep(rules, s, acts[0], id);
      SilenceAlways(rules, Next(rules, s, acts[0]), acts[1..], id);
    }
  }

  // ---- two firings without a control-channel event between them ----

  ghost predicate Quiet(marks: seq<Mark>, i: int, j: int) {
    forall k | 0 <= i < k < j < |marks| :: marks[k] != ControlChannel
  }

  /** Mark l is the latch behind the firing, or the firing to come, at position i. */
  predicate LatchOf(marks: seq<Mark>, id: string, l: nat, i: nat)
    requires i <= |marks|
  {
    l < i && marks[l] == Latched(id) && forall n | l < n < i :: !IsFiringOf(marks[n], id)
  }

  /** A control-channel event fell between the latch of the firing at i and its recording. */
  ghost predicate Late(marks: seq<Mark>, id: string, i: nat)
    requires i < |marks|
  {
    exists l, k :: 0 <= l < k < i && LatchOf(marks, id, l, i) && marks[k] == ControlChannel
  }

  lemma {:induction false} OwedHasLatch(marks: seq<Mark>, id: string) returns (l: nat)
    requires Owed(marks, id)
    ensures LatchOf(marks, id, l, |marks|)
  {
    var n := |marks| - 1;
    if marks[n] == Latched(id) {
      l := n;
    } else {
      l := OwedHasLatch(marks[..n], id);
      assert forall k | l < k < n :: marks[..n][k] == marks[k];
    }
  }

  lemma {:induction false} LatchIsOwed(marks: seq<Mark>, id: string, l: nat)
    requires LatchOf(marks, id, l, |marks|)
    ensures Owed(marks, id)
  {
    var n := |marks| - 1;
    if l == n {
    } else {
      assert forall k | l <= k < n :: marks[..n][k] == marks[k];
      LatchIsOwed(marks[..n], id, l);
    }
  }

  lemma {:induction false} LatchedHasLatch(marks: seq<Mark>, id: string) returns (l: nat)
    requires LatchedSinceCc(marks, id)
    ensures l < |marks| && marks[l] == Latched(id)
    ensures forall k | l < k < |marks| :: marks[k] != ControlChannel
  {
    var n := |marks| - 1;
    if marks[n] == Latched(id) {
      l := n;
    } else {
      l := LatchedHasLatch(marks[..n], id);
      assert forall k | l < k < n :: marks[..n][k] == marks[k];
    }
  }

  lemma {:induction false} UnlatchedByCc(marks: seq<Mark>, id: string, l: nat) returns (k: nat)
    requires l < |marks| && marks[l] == Latched(id) && !LatchedSinceCc(marks, id)
    ensures l < k < |marks| && marks[k] == ControlChannel
  {
    var n := |marks| - 1;
    if marks[n] == ControlChannel {
      k := n;
    } else {
      k := UnlatchedByCc(marks[..n], id, l);
    }
  }

  /** Each firing has its latch, and that came after any earlier firing of the rule. */
  lemma FiringHasLatch(marks: seq<Mark>, id: string, i: nat) returns (l: nat)
    requires Orderly(marks, id) && i < |marks| && IsFiringOf(marks[i], id)
    ensures LatchOf(marks, id, l, i) && !LatchedSinceCc(marks[..l], id)
  {
    assert Allowed(marks[..i], marks[i], id);
    l := OwedHasLatch(marks[..i], id);
    assert forall n | l <= n < i :: marks[..i][n] == marks[n];
    assert Allowed(marks[..l], marks[l], id);
  }

  /** Between the latches of two firings of a rule there is a control-channel event. */
  lemma CcBetweenLatches(marks: seq<Mark>, id: string, i: nat, j: nat) returns (l: nat, k: nat, m: nat)
    requires Orderly(marks, id) && i < j < |marks| && IsFiringOf(marks[i], id) && IsFiringOf(marks[j], id)
    ensures LatchOf(marks, id, l, i) && LatchOf(marks, id, m, j)
    ensures l < i < m && l < k < m && marks[k] == ControlChannel
  {
    l := FiringHasLatch(marks, id, i);
    m := FiringHasLatch(marks, id, j);
    assert i < m;
    assert marks[..m][l] == marks[l];
    k := UnlatchedByCc(marks[..m], id, l);
  }

  lemma SecondFiringMeansLate(marks: seq<Mark>, id: string, i: nat, j: nat)
    requires Orderly(marks, id) && i < j < |marks| && IsFiringOf(marks[i], id) && IsFiringOf(marks[j], id)
    requires Quiet(marks, i, j)
    ensures Late(marks, id, i)
  {
    var l, k, m := CcBetweenLatches(marks, id, i, j);
    assert k < i;
  }

  lemma NeverThree(marks: seq<Mark>, id: string, h: nat, i: nat, j: nat)
    requires Orderly(marks, id) && h < i < j < |marks|
    requires IsFiringOf(marks[h], id) && IsFiringOf(marks[i], id) && IsFiringOf(marks[j], id)
    ensures !Quiet(marks, h, j)
  {
    var l := FiringHasLatch(marks, id, i);
    assert h < l;
    var l', k, m := CcBetweenLatches(marks, id, i, j);
    assert l' == l || l' < l || l < l';
    SameLatch(marks, id, l, l', i);
  }

  lemma SameLatch(marks: seq<Mark>, id: string, l: nat, l': nat, i: nat)
    requires Orderly(marks, id) && i < |marks| && LatchOf(marks, id, l, i) && LatchOf(marks, id, l', i)
    ensures l == l'
  {
    var a, b := if l < l' then l else l', if l < l' then l' else l;
    if a < b {
      assert forall n | a <= n < b :: marks[..b][n] == marks[n];
      LatchIsOwed(marks[..b], id, a);
    }
  }

  /** For every interleaving of events with the two blocks of the tick: two firings of a cc_silent rule
      have a control-channel event between them, unless one fell between the latch of the first and
      its recording; and of three firings the outer two always have one between them. */
  lemma SilenceFiresOncePerOutage(rules: Rules, acts: seq<Action>, id: string)
    requires Run(rules, INIT, acts) && IsSilenceRule(rules, id)
    ensures var d := After(rules, INIT, acts).data;
            && d.log == FiringsOf(d.marks)
            && (forall i, j | 0 <= i < j < |d.marks| && IsFiringOf(d.marks[i], id) && IsFiringOf(d.marks[j], id)
                  && Quiet(d.marks, i, j) :: Late(d.marks, id, i))
            && (forall h, i, j | 0 <= h < i < j < |d.marks| && IsFiringOf(d.marks[h], id)
                  && IsFiringOf(d.marks[i], id) && IsFiringOf(d.marks[j], id) :: !Quiet(d.marks, h, j))
  {
    SilenceAlways(rules, INIT, acts, id);
    var marks := After(rules, INIT, acts).data.marks;
    forall i, j | 0 <= i < j < |marks| && IsFiringOf(marks[i], id) && IsFiringOf(marks[j], id) && Quiet(marks, i, j)
      ensures Late(marks, id, i)
    {
      SecondFiringMeansLate(marks, id, i, j);
    }
    forall h, i, j | 0 <= h < i < j < |marks| && IsFiringOf(marks[h], id)
                     && IsFiringOf(marks[i], id) && IsFiringOf(marks[j], id)
      ensures !Quiet(marks, h, j)
    {
      NeverThree(marks, id, h, i, j);
    }
  }

  // ---- exactly when it can fire again ----

  predicate IsHeartbeat(a: Action) {
    a.EventCache? && IsControlChannel(a.ev.body)
  }

  predicate NoHeartbeat(acts: seq<Action>) {
    forall i | 0 <= i < |acts| :: !IsHeartbeat(acts[i])
  }

  /** These steps record a firing of the rule. */
  ghost predicate FiresIn(rules: Rules, s: State, more: seq<Action>, id: string)
    requires Run(rules, s, more)
  {
    var marks := After(rules, s, more).data.marks;
    exists j :: |s.data.marks| <= j < |marks| && IsFiringOf(marks[j], id)
  }

  ghost predicate CanFireQuietly(rules: Rules, s: State, id: string) {
    exists more :: NoHeartbeat(more) && Run(rules, s, more) && FiresIn(rules, s, more, id)
  }

  lemma {:induction false} MarksExtend(rules: Rules, s: State, acts: seq<Action>)
    requires Run(rules, s, acts) && NoHeartbeat(acts)
    ensures var marks := After(rules, s, acts).data.marks;
            && s.data.marks <= marks
            && forall k | |s.data.marks| <= k < |marks| :: marks[k] != ControlChannel
    decreases |acts|
  {
    if acts == [] {
    } else {
      assert !IsHeartbeat(acts[0]);
      MarksExtend(rules, Next(rules, s, acts[0]), acts[1..]);
    }
  }

  lemma LateOpensLatch(marks: seq<Mark>, id: string)
    requires Orderly(marks, id) && marks != [] && IsFiringOf(marks[|marks| - 1], id)
    requires Late(marks, id, |marks| - 1)
    ensures !LatchedSinceCc(marks, id) && ControlChannel in marks
  {
    var n := |marks| - 1;
    var l, k :| 0 <= l < k < n && LatchOf(marks, id, l, n) && marks[k] == ControlChannel;
    if LatchedSinceCc(marks, id) {
      var m := LatchedHasLatch(marks, id);
      assert k < m < n;
      SameLatch(marks, id, l, m, n);
    }
  }

  /** Just after a firing was recorded, the rule can fire again with no control-channel event in
      between if and only if one fell between its latch and its recording. */
  lemma FiresAgainIff(rules: Rules, acts: seq<Action>, id: string)
    requires Run(rules, INIT, acts) && IsSilenceRule(rules, id) && rules[id].enabled
    requires var s := After(rules, INIT, acts);
             s.tick.TTicking? && s.data.marks != [] && IsFiringOf(s.data.marks[|s.data.marks| - 1], id)
    ensures var s := After(rules, INIT, acts);
            CanFireQuietly(rules, s, id) <==> Late(s.data.marks, id, |s.data.marks| - 1)
  {
    var s := After(rules, INIT, acts);
    SilenceAlways(rules, INIT, acts, id);
    if CanFireQuietly(rules, s, id) {
      FiredAgainWasLate(rules, s, id);
    }
    if Late(s.data.marks, id, |s.data.marks| - 1) {
      LateOpensLatch(s.data.marks, id);
      NextTickFires(rules, s, id);
    }
  }

  lemma FiredAgainWasLate(rules: Rules, s: State, id: string)
    requires Inv(rules, s) && SilenceInv(s, id) && IsSilenceRule(rules, id)
    requires s.data.marks != [] && IsFiringOf(s.data.marks[|s.data.marks| - 1], id)
    requires CanFireQuietly(rules, s, id)
    ensures Late(s.data.marks, id, |s.data.marks| - 1)
  {
    var more :| NoHeartbeat(more) && Run(rules, s, more) && FiresIn(rules, s, more, id);
    var marks, n := After(rules, s, more).data.marks, |s.data.marks| - 1;
    var j :| |s.data.marks| <= j < |marks| && IsFiringOf(marks[j], id);
    SilenceAlways(rules, s, more, id);
    MarksExtend(rules, s, more);
    SecondFiringMeansLate(marks, id, n, j);
    LateInPrefix(s.data.marks, marks, id, n);
  }

  lemma LateInPrefix(before: seq<Mark>, marks: seq<Mark>, id: string, n: nat)
    requires before <= marks && n < |before| && Late(marks, id, n)
    ensures Late(before, id, n)
  {
    var l, k :| 0 <= l < k < n && LatchOf(marks, id, l, n) && marks[k] == ControlChannel;
    assert forall i | 0 <= i < n :: before[i] == marks[i];
    assert LatchOf(before, id, l, n);
  }

  /** With its latch open, the rule fires on a tick late enough after the last control-channel event. */
  lemma NextTickFires(rules: Rules, s: State, id: string)
    requires IsSilenceRule(rules, id) && rules[id].enabled
    requires s.tick.TTicking? && id !in s.data.ccFired && s.data.lastCcAt.Some?
    ensures CanFireQuietly(rules, s, id)
  {
    var now := Max(s.tick.now, s.data.lastCcAt.value + rules[id].kind.timeout);
    var acts: seq<Action> := [];
    Trace(rules, s, acts, s, TickDone);
    acts := acts + [TickDone];
    var s1 := Next(rules, s, TickDone);
    Trace(rules, s, acts, s1, TickStart(now));
    acts := acts + [TickStart(now)];
    var s2 := Next(rules, s1, TickStart(now));
    Trace(rules, s, acts, s2, TickCcCheck(id));
    acts := acts + [TickCcCheck(id)];
    var s3 := Next(rules, s2, TickCcCheck(id));
    Trace(rules, s, acts, s3, TickCcLatch);
    acts := acts + [TickCcLatch];
    var s4 := Next(rules, s3, TickCcLatch);
    Trace(rules, s, acts, s4, TickRecord);
    acts := acts + [TickRecord];
    assert After(rules, s, acts).data.marks == s.data.marks + [Latched(id)] + [Fired(Firing(id, now))];
    assert IsFiringOf(After(rules, s, acts).data.marks[|s.data.marks| + 1], id);
  }

  /** Such a run exists: the heartbeat returns between latch and record, the control channel falls
      silent again, and both alarms are recorded after that heartbeat. */
  lemma TwoFiringsInOneOutage(rules: Rules, id: string, first: Event, second: Event, now: int, later: int)
    returns (acts: seq<Action>)
    requires IsSilenceRule(rules, id) && rules[id].enabled
    requires IsControlChannel(first.body) && IsControlChannel(second.body)
    requires rules[id].kind.timeout <= now - When(first) && rules[id].kind.timeout <= later - When(second)
    ensures Run(rules, INIT, acts)
    ensures After(rules, INIT, acts).data.marks ==
            [ControlChannel, Latched(id), ControlChannel, Fired(Firing(id, now)), Latched(id), Fired(Firing(id, later))]
    ensures After(rules, INIT, acts).data.log == [Firing(id, now), Firing(id, later)]
  {
    var s: State;
    acts, s := AlarmInRun(rules, id, first, now);
    acts, s := Then(rules, acts, s, EventCache(second));
    acts, s := Then(rules, acts, s, TickRecord);
    acts, s := Then(rules, acts, s, TickDone);
    acts, s := Then(rules, acts, s, TickStart(later));
    acts, s := Then(rules, acts, s, TickCcCheck(id));
    acts, s := Then(rules, acts, s, TickCcLatch);
    acts, s := Then(rules, acts, s, TickRecord);
  }

  /** A late first firing allows the second but does not force it into the same outage. */
  lemma LateFiringMayEndItsOutage(rules: Rules, id: string, first: Event, second: Event, third: Event, now: int, later: int)
    returns (acts: seq<Action>)
    requires IsSilenceRule(rules, id) && rules[id].enabled
    requires IsControlChannel(first.body) && IsControlChannel(second.body) && IsControlChannel(third.body)
    requires rules[id].kind.timeout <= now - When(first) && rules[id].kind.timeout <= later - When(third)
    ensures Run(rules, INIT, acts)
    ensures After(rules, INIT, acts).data.marks ==
            [ControlChannel, Latched(id), ControlChannel, Fired(Firing(id, now)),
             ControlChannel, Latched(id), Fired(Firing(id, later))]
  {
    var s: State;
    acts, s := AlarmInRun(rules, id, first, now);
    acts, s := Then(rules, acts, s, EventCache(second));
    acts, s := Then(rules, acts, s, TickRecord);
    acts, s := Then(rules, acts, s, EventDone);
    acts, s := Then(rules, acts, s, EventCache(third));
    acts, s := Then(rules, acts, s, TickDone);
    acts, s := Then(rules, acts, s, TickStart(later));
    acts, s := Then(rules, acts, s, TickCcCheck(id));
    acts, s := Then(rules, acts, s, TickCcLatch);
    acts, s := Then(rules, acts, s, TickRecord);
  }

  /** One more step of a run from the start. */
  lemma Then(rules: Rules, acts: seq<Action>, s: State, a: Action) returns (longer: seq<Action>, t: State)
    requires Traced(rules, INIT, acts, s) && Enabled(rules, s, a)
    ensures longer == acts + [a] && t == Next(rules, s, a) && Traced(rules, INIT, longer, t)
  {
    Trace(rules, INIT, acts, s, a);
    longer, t := acts + [a], Next(rules, s, a);
  }

  /** From the start to the first latch. */
  lemma AlarmInRun(rules: Rules, id: string, heartbeat: Event, now: int) returns (acts: seq<Action>, s: State)
    requires IsSilenceRule(rules, id) && rules[id].enabled && IsControlChannel(heartbeat.body)
    requires rules[id].kind.timeout <= now - When(heartbeat)
    ensures Traced(rules, INIT, acts, s)
    ensures s.event == EIdle && s.tick == TRecording(now, Firing(id, now))
    ensures s.data == START.(lastCcAt := Some(When(heartbeat)), ccFired := {id}, marks := [ControlChannel, Latched(id)])
  {
    acts, s := CheckInRun(rules, id, heartbeat, now);
    acts, s := Then(rules, acts, s, TickCcLatch);
  }

  /** From the start to between the two blocks of the check. */
  lemma CheckInRun(rules: Rules, id: string, heartbeat: Event, now: int) returns (acts: seq<Action>, s: State)
    requires IsSilenceRule(rules, id) && rules[id].enabled && IsControlChannel(heartbeat.body)
    requires rules[id].kind.timeout <= now - When(heartbeat)
    ensures Traced(rules, INIT, acts, s)
    ensures s == State(START.(lastCcAt := Some(When(heartbeat)), marks := [ControlChannel]),
                       EIdle, TCcChecked(now, id, When(heartbeat)))
  {
    acts, s := [], INIT;
    acts, s := Then(rules, acts, s, EventCache(heartbeat));
    acts, s := Then(rules, acts, s, EventDone);
    acts, s := Then(rules, acts, s, TickStart(now));
    acts, s := Then(rules, acts, s, TickCcCheck(id));
  }

  // ---- exactly when the alarm is still true ----

  /** The last control-channel event among some steps. */
  function LastHeartbeat(acts: seq<Action>): Option<int> {
    if acts == [] then None
    else
      var later := LastHeartbeat(acts[1..]);
      if later.Some? then later
      else if IsHeartbeat(acts[0]) then Some(When(acts[0].ev)) else None
  }

  predicate EventSteps(acts: seq<Action>) {
    forall i | 0 <= i < |acts| :: EventStep(acts[i])
  }

  lemma {:induction false} EventsMoveHeartbeat(rules: Rules, s: State, acts: seq<Action>)
    requires Run(rules, s, acts) && EventSteps(acts) && s.data.lastCcAt.Some?
    ensures var t := After(rules, s, acts);
            && t.tick == s.tick && t.data.ccFired <= s.data.ccFired
            && t.data.lastCcAt == Some(LastHeartbeat(acts).Or(s.data.lastCcAt.value))
    decreases |acts|
  {
    if acts == [] {
    } else {
      assert EventStep(acts[0]);
      EventsMoveHeartbeat(rules, Next(rules, s, acts[0]), acts[1..]);
    }
  }

  /** The control channel has been silent for as long as the rule says. */
  predicate SilentFor(d: Data, timeout: int, now: int) {
    d.lastCcAt.Some? && timeout <= now - d.lastCcAt.value
  }

  /** Whatever the event thread does between the two blocks of a check that passed, the second block
      raises the alarm; that alarm is true if and only if no control-channel event came in between,
      or the last one is itself older than the timeout. */
  lemma AlarmIsTrueIff(rules: Rules, s: State, id: string, between: seq<Action>)
    requires s.tick.TTicking? && Enabled(rules, s, TickCcCheck(id))
    requires var checked := Next(rules, s, TickCcCheck(id));
             checked.tick.TCcChecked? && Run(rules, checked, between) && EventSteps(between)
    ensures var checked := Next(rules, s, TickCcCheck(id));
            var t := After(rules, checked, between);
            && t.tick == checked.tick
            && Next(rules, t, TickCcLatch).tick == TRecording(s.tick.now, Firing(id, s.tick.now))
            && t.data.lastCcAt == Some(LastHeartbeat(between).Or(checked.tick.seenCcAt))
            && (SilentFor(t.data, rules[id].kind.timeout, s.tick.now) <==>
                  LastHeartbeat(between).None? || rules[id].kind.timeout <= s.tick.now - LastHeartbeat(between).value)
  {
    EventsMoveHeartbeat(rules, Next(rules, s, TickCcCheck(id)), between);
  }

  /** A false alarm in a run from the start: a heartbeat slips in between the blocks and does not stop
      it.  The latch it took keeps the rule quiet until the next heartbeat, however long the silence. */
  lemma LateHeartbeatDoesNotStopAlarm(rules: Rules, id: string, first: Event, second: Event, now: int)
    returns (acts: seq<Action>)
    requires IsSilenceRule(rules, id) && rules[id].enabled
    requires IsControlChannel(first.body) && IsControlChannel(second.body)
    requires now - When(second) < rules[id].kind.timeout <= now - When(first)
    ensures Run(rules, INIT, acts)
    ensures var t := After(rules, INIT, acts);
            && t.data.log == [Firing(id, now)] && !SilentFor(t.data, rules[id].kind.timeout, now)
            && forall later :: Next(rules, t.(tick := TTicking(later)), TickCcCheck(id)).tick == TTicking(later)
  {
    var s: State;
    acts, s := CheckInRun(rules, id, first, now);
    acts, s := Then(rules, acts, s, EventCache(second));
    acts, s := Then(rules, acts, s, TickCcLatch);
    acts, s := Then(rules, acts, s, TickRecord);
  }
}
