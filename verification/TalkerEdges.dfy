/** Edges and nodes of the talker graph, built from the accumulators (backend/network.py). */
module TalkerEdges {
  import opened Prelude
  import opened Counters
  import opened TalkerGraph
  import Seqs

  // ---- group edges ----

  /** The talkgroups both radios keyed up on. */
  function SharedTgs(keyups: map<int, Counter>, a: int, b: int): set<int> {
    set tg | tg in keyups && a in keyups[tg] && b in keyups[tg]
  }

  /** The sum over talkgroups of the smaller keyup count. */
  ghost function SumMin(keyups: map<int, Counter>, tgs: set<int>, a: int, b: int): nat
    requires tgs <= SharedTgs(keyups, a, b)
  {
    if tgs == {} then 0
    else var tg := Seqs.Choose(tgs);
         Min(keyups[tg][a], keyups[tg][b]) + SumMin(keyups, tgs - {tg}, a, b)
  }

  lemma {:induction false} SumMinSplit(keyups: map<int, Counter>, tgs: set<int>, a: int, b: int, tg: int)
    requires tgs <= SharedTgs(keyups, a, b) && tg in tgs
    ensures SumMin(keyups, tgs, a, b) == Min(keyups[tg][a], keyups[tg][b]) + SumMin(keyups, tgs - {tg}, a, b)
    decreases |tgs|
  {
    var t := Seqs.Choose(tgs);
    if t != tg {
      SumMinSplit(keyups, tgs - {t}, a, b, tg);
      SumMinSplit(keyups, tgs - {tg}, a, b, t);
      assert tgs - {t} - {tg} == tgs - {tg} - {t};
    }
  }

  type Weights = map<Pair, nat>
  type Tables = map<Pair, set<int>>

  /** The tables after the talkgroups in `done`. */
  ghost predicate Weighed(keyups: map<int, Counter>, done: set<int>, weights: Weights, shared: Tables) {
    && weights.Keys == shared.Keys
    && (forall p: Pair :: p in weights <==> p.0 < p.1 && SharedTgs(keyups, p.0, p.1) * done != {})
    && (forall p: Pair | p in weights ::
          && shared[p] == SharedTgs(keyups, p.0, p.1) * done
          && weights[p] == SumMin(keyups, shared[p], p.0, p.1))
  }

  /** All pairs of one talkgroup whose smaller id is in `heads`. */
  function PairsOf(radios: set<int>, heads: set<int>): set<Pair> {
    set a, b | a in heads && b in radios && a < b :: (a, b)
  }

  function Tgs(shared: Tables, p: Pair): set<int> {
    if p in shared then shared[p] else {}
  }

  /** The tables after talkgroup `tg` has been counted for the pairs in `hit`. */
  ghost predicate Counted(tg: int, per: Counter, hit: set<Pair>,
                          weights0: Weights, shared0: Tables, weights: Weights, shared: Tables)
  {
    && (forall p | p in hit :: p.0 in per && p.1 in per)
    && weights.Keys == weights0.Keys + hit && shared.Keys == shared0.Keys + hit
    && (forall p | p in weights ::
          weights[p] == Get(weights0, p) + if p in hit then Min(per[p.0], per[p.1]) else 0)
    && (forall p | p in shared :: shared[p] == Tgs(shared0, p) + if p in hit then {tg} else {})
  }

  /** Group edges: for each talkgroup, every pair of distinct radios. */
  method GroupWeights(keyups: map<int, Counter>) returns (weights: Weights, shared: Tables)
    ensures Weighed(keyups, keyups.Keys, weights, shared)
  {
    weights, shared := map[], map[];
    var rest := keyups.Keys;
    while rest != {}
      invariant rest <= keyups.Keys && Weighed(keyups, keyups.Keys - rest, weights, shared)
      decreases |rest|
    {
      var tg := Seqs.Pick(rest);
      ghost var done, weights0, shared0 := keyups.Keys - rest, weights, shared;
      weights, shared := AddTalkgroup(tg, keyups[tg], weights, shared);
      TalkgroupDone(keyups, done, tg, weights0, shared0, weights, shared);
      rest := rest - {tg};
      assert done + {tg} == keyups.Keys - rest;
    }
    assert keyups.Keys - rest == keyups.Keys;
  }

  lemma TalkgroupDone(keyups: map<int, Counter>, done: set<int>, tg: int,
                      weights0: Weights, shared0: Tables, weights: Weights, shared: Tables)
    requires tg in keyups && tg !in done && Weighed(keyups, done, weights0, shared0)
    requires Counted(tg, keyups[tg], PairsOf(keyups[tg].Keys, keyups[tg].Keys), weights0, shared0, weights, shared)
    ensures Weighed(keyups, done + {tg}, weights, shared)
  {
    var hit := PairsOf(keyups[tg].Keys, keyups[tg].Keys);
    forall p: Pair
      ensures p in weights <==> p.0 < p.1 && SharedTgs(keyups, p.0, p.1) * (done + {tg}) != {}
      ensures p in weights ==> shared[p] == SharedTgs(keyups, p.0, p.1) * (done + {tg})
                               && weights[p] == SumMin(keyups, shared[p], p.0, p.1)
    {
      OnePair(keyups, done, tg, weights0, shared0, weights, shared, p);
    }
  }

  lemma OnePair(keyups: map<int, Counter>, done: set<int>, tg: int,
                weights0: Weights, shared0: Tables, weights: Weights, shared: Tables, p: Pair)
    requires tg in keyups && tg !in done && Weighed(keyups, done, weights0, shared0)
    requires Counted(tg, keyups[tg], PairsOf(keyups[tg].Keys, keyups[tg].Keys), weights0, shared0, weights, shared)
    ensures p in weights <==> p.0 < p.1 && SharedTgs(keyups, p.0, p.1) * (done + {tg}) != {}
    ensures p in weights ==> shared[p] == SharedTgs(keyups, p.0, p.1) * (done + {tg})
                             && weights[p] == SumMin(keyups, shared[p], p.0, p.1)
  {
    BeforePair(keyups, done, weights0, shared0, p);
    InPairsOf(keyups[tg].Keys, keyups[tg].Keys, p);
    TgsStep(keyups, done, tg, p);
  }

  lemma BeforePair(keyups: map<int, Counter>, done: set<int>, weights: Weights, shared: Tables, p: Pair)
    requires Weighed(keyups, done, weights, shared)
    ensures p.0 < p.1 ==> Tgs(shared, p) == SharedTgs(keyups, p.0, p.1) * done
    ensures p.0 < p.1 ==> Get(weights, p) == SumMin(keyups, SharedTgs(keyups, p.0, p.1) * done, p.0, p.1)
    ensures p in weights ==> p.0 < p.1
  {
  }

  lemma InPairsOf(radios: set<int>, heads: set<int>, p: Pair)
    ensures p in PairsOf(radios, heads) <==> p.0 < p.1 && p.0 in heads && p.1 in radios
  {
    assert p == (p.0, p.1);
  }

  lemma TgsStep(keyups: map<int, Counter>, done: set<int>, tg: int, p: Pair)
    requires tg in keyups && tg !in done
    ensures var tgs := SharedTgs(keyups, p.0, p.1);
            var both := p.0 in keyups[tg] && p.1 in keyups[tg];
            && tgs * (done + {tg}) == tgs * done + (if both then {tg} else {})
            && SumMin(keyups, tgs * (done + {tg}), p.0, p.1)
               == SumMin(keyups, tgs * done, p.0, p.1) + if both then Min(keyups[tg][p.0], keyups[tg][p.1]) else 0
  {
    var tgs := SharedTgs(keyups, p.0, p.1);
    var before, after := tgs * done, tgs * (done + {tg});
    if p.0 in keyups[tg] && p.1 in keyups[tg] {
      assert after == before + {tg} && after - {tg} == before;
      SumMinSplit(keyups, after, p.0, p.1, tg);
    } else {
      assert after == before;
    }
  }

  lemma HeadsSplit(radios: set<int>, heads: set<int>, a: int)
    requires a in heads && heads <= radios
    ensures PairsOf(radios, radios - (heads - {a})) == PairsOf(radios, radios - heads) + PairsOf(radios, {a})
    ensures PairsOf(radios, radios - heads) !! PairsOf(radios, {a})
  {
    var done := radios - heads;
    assert radios - (heads - {a}) == done + {a};
    forall p: Pair ensures p in PairsOf(radios, done + {a}) <==> p in PairsOf(radios, done) + PairsOf(radios, {a})
                   ensures !(p in PairsOf(radios, done) && p in PairsOf(radios, {a})) {
      InPairsOf(radios, done + {a}, p);
      InPairsOf(radios, done, p);
      InPairsOf(radios, {a}, p);
    }
  }

  /** The two inner loops: each radio of the talkgroup with each later one. */
  method AddTalkgroup(tg: int, per: Counter, weights0: Weights, shared0: Tables)
    returns (weights: Weights, shared: Tables)
    requires weights0.Keys == shared0.Keys
    ensures Counted(tg, per, PairsOf(per.Keys, per.Keys), weights0, shared0, weights, shared)
  {
    weights, shared := weights0, shared0;
    var heads := per.Keys;
    ghost var hit: set<Pair> := {};
    NoneCounted(tg, per, weights0, shared0);
    while heads != {}
      invariant heads <= per.Keys && hit == PairsOf(per.Keys, per.Keys - heads)
      invariant Counted(tg, per, hit, weights0, shared0, weights, shared)
      decreases |heads|
    {
      var a := Seqs.Pick(heads);
      HeadsSplit(per.Keys, heads, a);
      weights, shared := AddPairsOf(tg, per, a, hit, weights0, shared0, weights, shared);
      hit := hit + PairsOf(per.Keys, {a});
      heads := heads - {a};
    }
    AllHeads(per.Keys, heads);
  }

  lemma NoneCounted(tg: int, per: Counter, weights: Weights, shared: Tables)
    requires weights.Keys == shared.Keys
    ensures Counted(tg, per, {}, weights, shared, weights, shared)
    ensures PairsOf(per.Keys, per.Keys - per.Keys) == {}
  {
  }

  lemma AllHeads(radios: set<int>, heads: set<int>)
    ensures heads == {} ==> PairsOf(radios, radios - heads) == PairsOf(radios, radios)
  {
    if heads == {} {
      assert radios - heads == radios;
    }
  }

  lemma CountOne(tg: int, per: Counter, hit: set<Pair>, p: Pair,
                 weights0: Weights, shared0: Tables, weights: Weights, shared: Tables)
    requires Counted(tg, per, hit, weights0, shared0, weights, shared)
    requires p !in hit && p.0 in per && p.1 in per
    ensures Counted(tg, per, hit + {p}, weights0, shared0,
                    weights[p := Get(weights, p) + Min(per[p.0], per[p.1])], shared[p := Tgs(shared, p) + {tg}])
  {
  }

  function PairsWith(a: int, bs: set<int>): set<Pair> {
    set b | b in bs :: (a, b)
  }

  method AddPairsOf(tg: int, per: Counter, a: int, ghost hit: set<Pair>,
                    ghost weights0: Weights, ghost shared0: Tables, weights1: Weights, shared1: Tables)
    returns (weights: Weights, shared: Tables)
    requires a in per && Counted(tg, per, hit, weights0, shared0, weights1, shared1)
    requires hit !! PairsOf(per.Keys, {a})
    ensures Counted(tg, per, hit + PairsOf(per.Keys, {a}), weights0, shared0, weights, shared)
  {
    var rest := set b | b in per && a < b;
    Tails(per.Keys, a, rest);
    weights, shared := AddTails(tg, per, a, rest, hit, weights0, shared0, weights1, shared1);
  }

  lemma Tails(radios: set<int>, a: int, later: set<int>)
    requires forall b :: b in later <==> b in radios && a < b
    ensures PairsOf(radios, {a}) == PairsWith(a, later)
  {
    forall p: Pair ensures p in PairsOf(radios, {a}) <==> p in PairsWith(a, later) {
      InPairsOf(radios, {a}, p);
      assert p == (p.0, p.1);
    }
  }

  method AddTails(tg: int, per: Counter, a: int, later: set<int>, ghost hit: set<Pair>,
                  ghost weights0: Weights, ghost shared0: Tables, weights1: Weights, shared1: Tables)
    returns (weights: Weights, shared: Tables)
    requires a in per && later <= per.Keys && Counted(tg, per, hit, weights0, shared0, weights1, shared1)
    requires hit !! PairsWith(a, later)
    ensures Counted(tg, per, hit + PairsWith(a, later), weights0, shared0, weights, shared)
  {
    weights, shared := weights1, shared1;
    var rest := later;
    ghost var got := hit;
    assert hit + PairsWith(a, {}) == hit;
    assert later - rest == {};
    while rest != {}
      invariant rest <= later && got == hit + PairsWith(a, later - rest)
      invariant Counted(tg, per, got, weights0, shared0, weights, shared)
      decreases |rest|
    {
      var b := Seqs.Pick(rest);
      OneTail(hit, a, later, rest, b);
      CountOne(tg, per, got, (a, b), weights0, shared0, weights, shared);
      weights := weights[(a, b) := Get(weights, (a, b)) + Min(per[a], per[b])];
      shared := shared[(a, b) := Tgs(shared, (a, b)) + {tg}];
      rest, got := rest - {b}, got + {(a, b)};
    }
    assert later - rest == later;
  }

  lemma OneTail(hit: set<Pair>, a: int, later: set<int>, rest: set<int>, b: int)
    requires b in rest && rest <= later && hit !! PairsWith(a, later)
    ensures (a, b) !in hit + PairsWith(a, later - rest)
    ensures hit + PairsWith(a, later - (rest - {b})) == hit + PairsWith(a, later - rest) + {(a, b)}
  {
    assert (a, b) in PairsWith(a, later);
    assert later - (rest - {b}) == later - rest + {b};
  }

  // ---- private edges ----

  function Unordered(p: Pair): Pair {
    if p.0 < p.1 then p else (p.1, p.0)
  }

  /** The directed counts of the pairs in `done`, with the directions collapsed. */
  ghost predicate Collapsed(direct: map<Pair, nat>, done: set<Pair>, weights: Weights) {
    && done <= direct.Keys
    && (forall p: Pair :: p in weights <==> p.0 <= p.1 && (p in done || (p.1, p.0) in done))
    && (forall p: Pair | p in weights ::
          weights[p] == (if p in done then direct[p] else 0)
                        + (if p.0 != p.1 && (p.1, p.0) in done then direct[(p.1, p.0)] else 0))
  }

  /** Collapsing directions conserves the total. */
  method PrivateWeights(direct: map<Pair, nat>) returns (weights: Weights)
    ensures Collapsed(direct, direct.Keys, weights) && Sum(weights) == Sum(direct)
  {
    weights := map[];
    var rest := direct.Keys;
    ghost var counted: map<Pair, nat> := map[];
    while rest != {}
      invariant rest <= direct.Keys && counted.Keys == direct.Keys - rest
      invariant PartlyCollapsed(direct, counted, weights)
      decreases |rest|
    {
      var p := Seqs.Pick(rest);
      CollapseOne(direct, counted, p, weights);
      weights := Bump(weights, Unordered(p), direct[p]);
      rest := rest - {p};
      counted := counted[p := direct[p]];
    }
    assert counted == direct;
  }

  ghost predicate PartlyCollapsed(direct: map<Pair, nat>, counted: map<Pair, nat>, weights: Weights) {
    && (forall p | p in counted :: p in direct && counted[p] == direct[p])
    && Collapsed(direct, counted.Keys, weights)
    && Sum(weights) == Sum(counted)
  }

  lemma CollapseOne(direct: map<Pair, nat>, counted: map<Pair, nat>, p: Pair, weights: Weights)
    requires PartlyCollapsed(direct, counted, weights) && p in direct && p !in counted
    ensures PartlyCollapsed(direct, counted[p := direct[p]], Bump(weights, Unordered(p), direct[p]))
  {
    SumBump(weights, Unordered(p), direct[p]);
    SumBump(counted, p, direct[p]);
    assert counted[p := direct[p]] == Bump(counted, p, direct[p]);
    OneDirection(direct, counted.Keys, p, weights);
    assert counted[p := direct[p]].Keys == counted.Keys + {p};
  }

  lemma OneDirection(direct: map<Pair, nat>, done: set<Pair>, p: Pair, weights: Weights)
    requires p in direct && p !in done && Collapsed(direct, done, weights)
    ensures Collapsed(direct, done + {p}, Bump(weights, Unordered(p), direct[p]))
  {
    var q := Unordered(p);
    forall r: Pair | r != q && r.0 <= r.1
      ensures r in done <==> r in done + {p}
      ensures (r.1, r.0) in done <==> (r.1, r.0) in done + {p}
    {
      assert r != p && (r.1, r.0) != p;
    }
  }
}
