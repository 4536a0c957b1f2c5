/** Which channels get a live decoder (backend/rf/scheduler.py). */
module Scheduler {
  import opened Prelude
  import opened Events
  import Lex
  import Seqs

  type Activity = map<string, int>   // label -> last activity

  function Bump(m: Activity, chan: string, at: int): Activity {
    if chan !in m || m[chan] < at then m[chan := at] else m
  }

  /** Every label of a set bumped at one moment. */
  function BumpAll(m: Activity, labels: set<string>, at: int): Activity {
    map l | l in m.Keys + labels ::
      if l !in labels then m[l] else if l !in m || m[l] < at then at else m[l]
  }

  function Granted(lsnToLabel: map<int, string>, lsns: set<int>): set<string> {
    set lsn | lsn in lsns && lsn in lsnToLabel :: lsnToLabel[lsn]
  }

  function ActiveLsns(states: seq<LsnState>): set<int> {
    set i | 0 <= i < |states| && states[i].active :: states[i].lsn
  }

  /** The labels an event shows active: its own channel for traffic, the granted channels for
      grants; a rest channel is never one of them. */
  function LabelsOf(lsnToLabel: map<int, string>, ev: Event): set<string> {
    match ev.body
    case VoiceCall(_, _, _, _) => Own(ev)
    case DataHeader(_, _, _, _) => Own(ev)
    case PreambleCsbk(_, _, _) => Own(ev)
    case LrrpPosition(_, _, _) => Own(ev)
    case LrrpRequest(_, _) => Own(ev)
    case LsnStatus(states) => Granted(lsnToLabel, ActiveLsns(states))
    case BankCall(lsnToTg) => Granted(lsnToLabel, lsnToTg.Keys)
    case _ => {}
  }

  /** The channels whose measured power reaches the threshold. */
  function Loud(powers: map<string, real>, threshold: real): set<string> {
    set l | l in powers && threshold <= powers[l]
  }

  function Own(ev: Event): set<string> {
    if ev.channel.Some? then {ev.channel.value} else {}
  }

  // ---- the choice ----

  predicate Within(active: Activity, hang: int, now: int, chan: string) {
    chan in active && now - active[chan] <= hang
  }

  function Candidates(control: set<string>, active: Activity, hang: int, now: int): set<string> {
    control + set l | l in active && Within(active, hang, now, l)
  }

  /** Sorting (time, label) pairs in reverse puts a before b. */
  predicate Fresher(active: Activity, a: string, b: string)
    requires a in active && b in active
  {
    active[b] < active[a] || (active[a] == active[b] && Lex.Less(b, a))
  }

  /** The policy: every control label, within the candidates, as many as the cap allows, and no
      dropped label is fresher than a kept one that is not control. */
  ghost predicate Chosen(control: set<string>, active: Activity, hang: int, now: int, cap: Option<int>, r: set<string>) {
    var all := Candidates(control, active, hang, now);
    && control <= r <= all
    && |r| == (if cap.None? then |all| else Min(|all|, Max(cap.value, |control|)))
    && (forall kept, dropped | kept in r - control && dropped in all - r :: Fresher(active, kept, dropped))
  }

  lemma FresherIsAsymmetric(active: Activity, a: string, b: string)
    requires a in active && b in active && Fresher(active, a, b)
    ensures !Fresher(active, b, a)
  {
    Lex.LessIsStrictOrder(a, b, a);
  }

  lemma SmallerHasOutsider(a: set<string>, b: set<string>, x: string) returns (y: string)
    requires |a| <= |b| && x in a && x !in b
    ensures y in b && y !in a
  {
    if b <= a {
      assert b <= a - {x};
      Cardinality(b, a - {x});
      assert false;
    }
    y :| y in b && y !in a;
  }

  lemma {:induction false} Cardinality(a: set<string>, b: set<string>)
    requires a <= b
    ensures |a| <= |b| && (|a| == |b| ==> a == b)
    decreases |a|
  {
    if a == {} {
    } else {
      var x :| x in a;
      Cardinality(a - {x}, b - {x});
      assert b == (b - {x}) + {x} && a == (a - {x}) + {x};
    }
  }

  /** A larger cap keeps everything a smaller one keeps. */
  lemma GrowsWithCap(control: set<string>, active: Activity, hang: int, now: int,
                     small: Option<int>, large: Option<int>, r: set<string>, s: set<string>)
    requires large.None? || (small.Some? && small.value <= large.value)
    requires Chosen(control, active, hang, now, small, r)
    requires Chosen(control, active, hang, now, large, s)
    ensures r <= s
  {
    var all := Candidates(control, active, hang, now);
    Cardinality(r, all);
    assert |r| <= |s|;
    forall x | x in r ensures x in s {
      if x !in s {
        var y := SmallerHasOutsider(r, s, x);
        assert x in r - control && y in all - r;
        assert y in s - control && x in all - s;
        assert Fresher(active, x, y) && Fresher(active, y, x);
        FresherIsAsymmetric(active, x, y);
      }
    }
  }

  /** The policy leaves no freedom: the choice depends on the recorded activity alone. */
  lemma ChoiceIsUnique(control: set<string>, active: Activity, hang: int, now: int, cap: Option<int>,
                       r: set<string>, s: set<string>)
    requires Chosen(control, active, hang, now, cap, r)
    requires Chosen(control, active, hang, now, cap, s)
    ensures r == s
  {
    GrowsWithCap(control, active, hang, now, cap, cap, r, s);
    GrowsWithCap(control, active, hang, now, cap, cap, s, r);
  }

  // ---- the order of arrival does not matter ----

  /** Some labels seen active at one moment: an event's, or those of a power reading. */
  datatype Seen = Seen(labels: set<string>, at: int)

  function Recorded(xs: seq<Seen>): Activity {
    if xs == [] then map[] else BumpAll(Recorded(xs[..|xs| - 1]), xs[|xs| - 1].labels, xs[|xs| - 1].at)
  }

  /** The record of a label is the latest moment it was seen. */
  lemma {:induction false} RecordIsLatest(xs: seq<Seen>, chan: string)
    ensures chan in Recorded(xs) <==> exists x :: x in xs && chan in x.labels
    ensures chan in Recorded(xs) ==>
              && (exists x :: x in xs && chan in x.labels && x.at == Recorded(xs)[chan])
              && forall x | x in xs && chan in x.labels :: x.at <= Recorded(xs)[chan]
  {
    if xs == [] {
    } else {
      var front, last := xs[..|xs| - 1], xs[|xs| - 1];
      RecordIsLatest(front, chan);
      assert xs == front + [last];
      assert forall x :: x in xs <==> x in front || x == last;
      assert last in xs;
    }
  }

  /** The same sightings in any order leave the same record, and so the same choice. */
  lemma ArrivalOrderDoesNotMatter(xs: seq<Seen>, ys: seq<Seen>)
    requires multiset(xs) == multiset(ys)
    ensures Recorded(xs) == Recorded(ys)
  {
    assert forall x :: x in xs <==> x in ys by {
      assert forall x :: x in xs <==> x in multiset(xs);
      assert forall x :: x in ys <==> x in multiset(ys);
    }
    forall chan ensures chan in Recorded(xs) <==> chan in Recorded(ys)
                 ensures chan in Recorded(xs) ==> Recorded(xs)[chan] == Recorded(ys)[chan]
    {
      RecordIsLatest(xs, chan);
      RecordIsLatest(ys, chan);
    }
  }

  // ---- the choice in terms of the sightings ----

  predicate IsRecent(xs: seq<Seen>, chan: string, hang: int, now: int) {
    exists x :: x in xs && chan in x.labels && now - x.at <= hang
  }

  /** Some sighting of a is later than every sighting of b, or as late and a is the later label. */
  predicate SeenAfter(xs: seq<Seen>, a: string, b: string) {
    exists x :: x in xs && a in x.labels
      && forall y | y in xs && b in y.labels :: y.at < x.at || (y.at == x.at && Lex.Less(b, a))
  }

  lemma CandidatesAreRecent(control: set<string>, xs: seq<Seen>, hang: int, now: int, chan: string)
    ensures chan in Candidates(control, Recorded(xs), hang, now) <==> chan in control || IsRecent(xs, chan, hang, now)
  {
    RecordIsLatest(xs, chan);
  }

  /** The channels with a decoder, by what was seen: all control channels; a further one only if it was seen at
      most `hang` ago; without a cap all such; with one, as many as it allows, and every one left out was seen
      before each that was kept, ties going to the later label. */
  lemma ChoiceBySightings(control: set<string>, xs: seq<Seen>, hang: int, now: int, cap: Option<int>, r: set<string>)
    requires Chosen(control, Recorded(xs), hang, now, cap, r)
    ensures control <= r && forall l | l in r - control :: IsRecent(xs, l, hang, now)
    ensures forall l | IsRecent(xs, l, hang, now) && l !in r ::
              cap.Some? && |r| == Max(cap.value, |control|) && forall kept | kept in r - control :: SeenAfter(xs, kept, l)
    ensures cap.Some? ==> |r| <= Max(cap.value, |control|)
  {
    var active := Recorded(xs);
    var all := Candidates(control, active, hang, now);
    forall l | l in r - control ensures IsRecent(xs, l, hang, now) {
      CandidatesAreRecent(control, xs, hang, now, l);
    }
    forall l | IsRecent(xs, l, hang, now) && l !in r
      ensures cap.Some? && |r| == Max(cap.value, |control|)
      ensures forall kept | kept in r - control :: SeenAfter(xs, kept, l)
    {
      CandidatesAreRecent(control, xs, hang, now, l);
      assert l in all - r;
      Cardinality(r, all);
      forall kept | kept in r - control ensures SeenAfter(xs, kept, l) {
        RecordIsLatest(xs, kept);
        RecordIsLatest(xs, l);
        assert Fresher(active, kept, l);
      }
    }
  }

  /** The labels of an event: the channel that traffic was heard on, and the channels granted to the active
      logical slots of a status or named by a bank call. */
  lemma LabelsAreOfTraffic(lsnToLabel: map<int, string>, ev: Event, l: string)
    ensures l in LabelsOf(lsnToLabel, ev) <==>
              || (TypeName(ev.body) in {"voice_call", "data_header", "preamble_csbk", "lrrp_position", "lrrp_request"}
                  && ev.channel == Some(l))
              || (ev.body.LsnStatus? && exists i :: 0 <= i < |ev.body.states| && ev.body.states[i].active
                                                    && IsLabelOf(lsnToLabel, ev.body.states[i].lsn, l))
              || (ev.body.BankCall? && exists lsn :: lsn in ev.body.lsnToTg && IsLabelOf(lsnToLabel, lsn, l))
  {
    match ev.body
    case LsnStatus(states) =>
      if i :| 0 <= i < |states| && states[i].active && IsLabelOf(lsnToLabel, states[i].lsn, l) {
        assert states[i].lsn in ActiveLsns(states);
        assert l in Granted(lsnToLabel, ActiveLsns(states));
      }
      if l in Granted(lsnToLabel, ActiveLsns(states)) {
        var lsn :| lsn in ActiveLsns(states) && lsn in lsnToLabel && lsnToLabel[lsn] == l;
        var i :| 0 <= i < |states| && states[i].active && states[i].lsn == lsn;
        assert IsLabelOf(lsnToLabel, states[i].lsn, l);
      }
    case BankCall(lsnToTg) =>
      if lsn :| lsn in lsnToTg && IsLabelOf(lsnToLabel, lsn, l) {
        assert l in Granted(lsnToLabel, lsnToTg.Keys);
      }
      if l in Granted(lsnToLabel, lsnToTg.Keys) {
        var lsn :| lsn in lsnToTg.Keys && lsn in lsnToLabel && lsnToLabel[lsn] == l;
        assert IsLabelOf(lsnToLabel, lsn, l);
      }
    case _ =>
  }

  predicate IsLabelOf(lsnToLabel: map<int, string>, lsn: int, l: string) {
    lsn in lsnToLabel && lsnToLabel[lsn] == l
  }

  class TrafficScheduler {
    const control: set<string>
    const lsnToLabel: map<int, string>
    const hang: int
    const maxActive: Option<int>
    const energyThreshold: real
    var lastActive: Activity

    constructor (control: set<string>, lsnToLabel: map<int, string>, hang: int, maxActive: Option<int>, energyThreshold: real)
      ensures this.control == control && this.lsnToLabel == lsnToLabel && this.hang == hang
      ensures this.maxActive == maxActive && this.energyThreshold == energyThreshold && lastActive == map[]
    {
      this.control, this.lsnToLabel, this.hang := control, lsnToLabel, hang;
      this.maxActive, this.energyThreshold, lastActive := maxActive, energyThreshold, map[];
    }

    method BumpLabel(chan: Option<string>, now: int)
      modifies this
      ensures lastActive == if chan.Some? then Bump(old(lastActive), chan.value, now) else old(lastActive)
    {
      if chan.None? {
        return;
      }
      if chan.value !in lastActive || lastActive[chan.value] < now {
        lastActive := lastActive[chan.value := now];
      }
    }

    method OnEvent(ev: Event, now: Option<int>)
      modifies this
      ensures lastActive == BumpAll(old(lastActive), LabelsOf(lsnToLabel, ev), now.Or(When(ev)))
    {
      var at := now.Or(When(ev));
      if ev.body.LsnStatus? {
        OnLsnStatus(ev.body.states, at);
      } else if ev.body.BankCall? {
        OnGrants(ev.body.lsnToTg.Keys, at);
      } else if ev.body.VoiceCall? || ev.body.DataHeader? || ev.body.PreambleCsbk?
                || ev.body.LrrpPosition? || ev.body.LrrpRequest? {
        BumpLabel(ev.channel, at);
      }
    }

    method OnLsnStatus(states: seq<LsnState>, at: int)
      modifies this
      ensures lastActive == BumpAll(old(lastActive), Granted(lsnToLabel, ActiveLsns(states)), at)
    {
      Seqs.Whole(states);
      for n := 0 to |states|
        invariant lastActive == BumpAll(old(lastActive), Granted(lsnToLabel, ActiveLsns(states[..n])), at)
      {
        Seqs.TakeSnoc(states, n);
        ghost var before := ActiveLsns(states[..n]);
        ActiveSnoc(states[..n], states[n]);
        if states[n].active {
          GrantOne(old(lastActive), lsnToLabel, before, states[n].lsn, at);
          BumpLabel(if states[n].lsn in lsnToLabel then Some(lsnToLabel[states[n].lsn]) else None, at);
        }
      }
    }

    method OnGrants(lsns: set<int>, at: int)
      modifies this
      ensures lastActive == BumpAll(old(lastActive), Granted(lsnToLabel, lsns), at)
    {
      var rest := lsns;
      while rest != {}
        invariant rest <= lsns
        invariant lastActive == BumpAll(old(lastActive), Granted(lsnToLabel, lsns - rest), at)
        decreases |rest|
      {
        var lsn := Seqs.Pick(rest);
        GrantOne(old(lastActive), lsnToLabel, lsns - rest, lsn, at);
        assert lsns - rest + {lsn} == lsns - (rest - {lsn});
        rest := rest - {lsn};
        BumpLabel(if lsn in lsnToLabel then Some(lsnToLabel[lsn]) else None, at);
      }
      assert lsns - rest == lsns;
    }

    method UpdateEnergy(powers: map<string, real>, at: int)
      modifies this
      ensures lastActive == BumpAll(old(lastActive), Loud(powers, energyThreshold), at)
    {
      var rest := powers.Keys;
      ghost var done: set<string> := {};
      BumpNone(lastActive, at);
      while rest != {}
        invariant rest <= powers.Keys
        invariant forall l :: l in done <==> l in powers && l !in rest && energyThreshold <= powers[l]
        invariant lastActive == BumpAll(old(lastActive), done, at)
        decreases |rest|
      {
        var l := Seqs.Pick(rest);
        rest := rest - {l};
        if energyThreshold <= powers[l] {
          BumpOne(old(lastActive), done, l, at);
          BumpLabel(Some(l), at);
          done := done + {l};
        }
      }
      assert done == Loud(powers, energyThreshold);
    }

    /** The labels that should have a decoder at `now`. */
    method ActiveLabels(now: int) returns (r: set<string>)
      ensures Chosen(control, lastActive, hang, now, maxActive, r)
    {
      var withinHang := set l | l in lastActive && Within(lastActive, hang, now, l);
      r := control + withinHang;
      if maxActive.Some? && maxActive.value < |r| {
        var order := SortFreshestFirst(withinHang);
        r := FillBudget(order, withinHang, now, Max(maxActive.value, |control|));
      }
    }

    /** All control labels, then the freshest others until the budget is used up. */
    method FillBudget(order: seq<string>, ghost withinHang: set<string>, ghost now: int, budget: int)
      returns (kept: set<string>)
      requires |control| <= budget
      requires withinHang == set l | l in lastActive && Within(lastActive, hang, now, l)
      requires Ordered(lastActive, order) && forall l :: l in order <==> l in withinHang
      ensures var all := control + withinHang;
              && control <= kept <= all && |kept| == Min(|all|, budget)
              && forall k, d | k in kept - control && d in all - kept :: Fresher(lastActive, k, d)
    {
      kept := control;
      var n := 0;
      while n < |order| && |kept| < budget
        invariant 0 <= n <= |order|
        invariant kept == WithFirst(control, order, n)
        invariant |kept| <= budget
      {
        WithFirstSnoc(control, order, n);
        kept := kept + {order[n]};
        n := n + 1;
      }
      FirstAreFreshest(control, withinHang, lastActive, order, n);
      Cardinality(kept, control + withinHang);
    }

    /** within_hang.sort(reverse=True) on (time, label) pairs. */
    method SortFreshestFirst(labels: set<string>) returns (order: seq<string>)
      requires labels <= lastActive.Keys
      ensures Ordered(lastActive, order) && forall l :: l in order <==> l in labels
    {
      order := [];
      var rest := labels;
      while rest != {}
        invariant rest <= labels
        invariant Ordered(lastActive, order)
        invariant forall l :: l in order <==> l in labels && l !in rest
        invariant forall l, m | l in order && m in rest :: Fresher(lastActive, l, m)
        decreases |rest|
      {
        var l := Freshest(rest);
        ghost var before := order;
        order := order + [l];
        rest := rest - {l};
        assert forall m :: m in order <==> m in before || m == l;
      }
    }

    method Freshest(labels: set<string>) returns (best: string)
      requires labels != {} && labels <= lastActive.Keys
      ensures best in labels && forall l | l in labels && l != best :: Fresher(lastActive, best, l)
    {
      best :| best in labels;
      var rest := labels - {best};
      while rest != {}
        invariant rest <= labels && best in labels
        invariant forall l | l in labels && l !in rest && l != best :: Fresher(lastActive, best, l)
        decreases |rest|
      {
        var l :| l in rest;
        rest := rest - {l};
        Lex.LessIsStrictOrder(l, best, l);
        if lastActive[best] < lastActive[l] || (lastActive[best] == lastActive[l] && Lex.Less(best, l)) {
          FresherIsTransitive(lastActive, l, best, labels);
          best := l;
        }
      }
    }
  }

  lemma FresherIsTransitive(active: Activity, a: string, b: string, labels: set<string>)
    requires a in active && b in active && labels <= active.Keys && Fresher(active, a, b)
    ensures forall c | c in labels && Fresher(active, b, c) :: Fresher(active, a, c)
  {
    forall c | c in labels && Fresher(active, b, c) ensures Fresher(active, a, c) {
      Lex.LessIsStrictOrder(c, b, a);
    }
  }

  ghost predicate Ordered(active: Activity, order: seq<string>) {
    && (forall i | 0 <= i < |order| :: order[i] in active)
    && (forall i, j | 0 <= i < j < |order| :: Fresher(active, order[i], order[j]))
  }

  /** The control labels and the first n of the order. */
  ghost function WithFirst(control: set<string>, order: seq<string>, n: nat): set<string>
    requires n <= |order|
  {
    control + set l | l in order[..n]
  }

  lemma WithFirstSnoc(control: set<string>, order: seq<string>, n: nat)
    requires n < |order|
    ensures WithFirst(control, order, n + 1) == WithFirst(control, order, n) + {order[n]}
  {
    assert order[..n + 1] == order[..n] + [order[n]];
  }

  lemma FirstAreFreshest(control: set<string>, others: set<string>, active: Activity, order: seq<string>, n: nat)
    requires n <= |order| && Ordered(active, order)
    requires forall l :: l in order <==> l in others
    ensures var all, kept := control + others, WithFirst(control, order, n);
            && control <= kept <= all && (n == |order| ==> kept == all)
            && forall k, d | k in kept - control && d in all - kept :: Fresher(active, k, d)
  {
    var all, kept := control + others, WithFirst(control, order, n);
    Seqs.Whole(order);
    assert forall j | 0 <= j < n :: order[..n][j] in kept;
    forall k, d | k in kept - control && d in all - kept ensures Fresher(active, k, d) {
      var i :| 0 <= i < n && order[..n][i] == k;
      var j :| 0 <= j < |order| && order[j] == d;
    }
  }

  lemma BumpOne(m: Activity, labels: set<string>, l: string, at: int)
    ensures BumpAll(m, labels + {l}, at) == Bump(BumpAll(m, labels, at), l, at)
  {
  }

  lemma BumpNone(m: Activity, at: int)
    ensures BumpAll(m, {}, at) == m
  {
  }

  lemma ActiveSnoc(states: seq<LsnState>, s: LsnState)
    ensures ActiveLsns(states + [s]) == ActiveLsns(states) + if s.active then {s.lsn} else {}
  {
    forall lsn ensures lsn in ActiveLsns(states + [s]) <==> lsn in ActiveLsns(states) || (s.active && lsn == s.lsn) {
      if lsn in ActiveLsns(states) {
        var i :| 0 <= i < |states| && states[i].active && states[i].lsn == lsn;
        assert (states + [s])[i] == states[i];
      }
      if s.active && lsn == s.lsn {
        assert (states + [s])[|states|] == s;
      }
    }
  }

  lemma GrantOne(m: Activity, lsnToLabel: map<int, string>, lsns: set<int>, lsn: int, at: int)
    ensures BumpAll(m, Granted(lsnToLabel, lsns + {lsn}), at)
            == var before := BumpAll(m, Granted(lsnToLabel, lsns), at);
               if lsn in lsnToLabel then Bump(before, lsnToLabel[lsn], at) else before
  {
    assert Granted(lsnToLabel, lsns + {lsn})
           == Granted(lsnToLabel, lsns) + if lsn in lsnToLabel then {lsnToLabel[lsn]} else {};
  }
}
