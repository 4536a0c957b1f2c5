/** The talker-pair graph over rows grouped by the database (backend/network.py), against the
    row-by-row computation it replaced. */
module TalkerGraph {
  import opened Prelude
  import opened Counters
  import Lex
  import Seqs

  /** An indexed row of the window, as far as the graph reads it. */
  datatype Row = Row(key: Key, ts: string)

  /** The GROUP BY columns. */
  datatype Key = Key(src: Option<int>, tgt: Option<int>, typeName: string, addressing: Option<string>)

  /** One grouped row: COUNT(*) and MAX(ts). */
  datatype Group = Group(key: Key, count: nat, maxTs: string)

  datatype Kind = Talkgroup | Private | Neither

  function Classify(typeName: string, addressing: Option<string>): Kind {
    if typeName == "voice_call" then Talkgroup
    else if typeName == "lrrp_request" then Private
    else if typeName == "preamble_csbk" || typeName == "data_header" then
      if addressing == Some("Individual") || addressing == Some("Indiv") then Private
      else if addressing == Some("Group") then Talkgroup
      else Neither
    else Neither
  }

  type Pair = (int, int)
  type Counter = map<int, nat>

  /** The accumulators of the aggregation loop. */
  datatype Acc = Acc(
    calls: Counter,                  // radio_total_calls
    seen: map<int, string>,          // radio_last_seen
    keyups: map<int, Counter>,       // tg_radio_count
    direct: map<Pair, nat>)          // private_pair

  const NOTHING := Acc(map[], map[], map[], map[])

  function See(seen: map<int, string>, id: int, ts: string): map<int, string> {
    if Lex.Less(if id in seen then seen[id] else "", ts) then seen[id := ts] else seen
  }

  function Keyups(m: map<int, Counter>, tg: int): Counter {
    if tg in m then m[tg] else map[]
  }

  function BumpKeyup(m: map<int, Counter>, tg: int, src: int, n: nat): map<int, Counter> {
    m[tg := Bump(Keyups(m, tg), src, n)]
  }

  /** A key that counts: both ids present and non-zero, and a known kind. */
  predicate Relevant(k: Key) {
    && k.src.Some? && k.tgt.Some? && k.src.value != 0 && k.tgt.value != 0
    && Classify(k.typeName, k.addressing) != Neither
  }

  /** The loop body, for `n` rows of one key whose latest timestamp is `ts`. */
  function Add(acc: Acc, k: Key, n: nat, ts: string): Acc {
    if !Relevant(k) then acc
    else
      var src, tgt := k.src.value, k.tgt.value;
      var calls, seen := Bump(acc.calls, src, n), See(acc.seen, src, ts);
      if Classify(k.typeName, k.addressing) == Talkgroup
      then Acc(calls, seen, BumpKeyup(acc.keyups, tgt, src, n), acc.direct)
      else Acc(Bump(calls, tgt, n), See(seen, tgt, ts), acc.keyups, Bump(acc.direct, (src, tgt), n))
  }

  function OfRows(rows: seq<Row>): Acc {
    if rows == [] then NOTHING
    else Add(OfRows(rows[..|rows| - 1]), rows[|rows| - 1].key, 1, rows[|rows| - 1].ts)
  }

  function OfGroups(groups: seq<Group>): Acc {
    if groups == [] then NOTHING
    else var g := groups[|groups| - 1];
         Add(OfGroups(groups[..|groups| - 1]), g.key, g.count, g.maxTs)
  }

  // ---- what GROUP BY returns ----

  function With(rows: seq<Row>, k: Key): seq<Row> {
    if rows == [] then []
    else With(rows[..|rows| - 1], k) + if rows[|rows| - 1].key == k then [rows[|rows| - 1]] else []
  }

  function Without(rows: seq<Row>, k: Key): seq<Row> {
    if rows == [] then []
    else Without(rows[..|rows| - 1], k) + if rows[|rows| - 1].key == k then [] else [rows[|rows| - 1]]
  }

  function MaxText(a: string, b: string): string {
    if Lex.Less(a, b) then b else a
  }

  function MaxTs(rows: seq<Row>): string {
    if rows == [] then "" else MaxText(MaxTs(rows[..|rows| - 1]), rows[|rows| - 1].ts)
  }

  predicate HasKey(groups: seq<Group>, k: Key) {
    exists i :: 0 <= i < |groups| && groups[i].key == k
  }

  predicate Summarises(g: Group, rows: seq<Row>) {
    With(rows, g.key) != [] && g.count == |With(rows, g.key)| && g.maxTs == MaxTs(With(rows, g.key))
  }

  /** One group for each key that occurs, in any order. */
  ghost predicate Grouping(rows: seq<Row>, groups: seq<Group>) {
    && (forall i, j | 0 <= i < j < |groups| :: groups[i].key != groups[j].key)
    && (forall i | 0 <= i < |groups| :: Summarises(groups[i], rows))
    && (forall j | 0 <= j < |rows| :: HasKey(groups, rows[j].key))
  }

  // ---- contributions commute and merge ----

  lemma SeesCommute(m: map<int, string>, a: int, s: string, b: int, t: string)
    ensures See(See(m, a, s), b, t) == See(See(m, b, t), a, s)
  {
    if a == b {
      var x := if a in m then m[a] else "";
      Lex.LessIsStrictOrder(x, s, t);
      Lex.LessIsStrictOrder(x, t, s);
      Lex.LessIsStrictOrder(s, t, s);
      Lex.LessIsStrictOrder(s, x, t);
      Lex.LessIsStrictOrder(t, x, s);
    }
  }

  lemma SeesMerge(m: map<int, string>, a: int, s: string, t: string)
    ensures See(See(m, a, s), a, t) == See(m, a, MaxText(s, t))
  {
    var x := if a in m then m[a] else "";
    Lex.LessIsStrictOrder(x, s, t);
    Lex.LessIsStrictOrder(x, t, s);
    Lex.LessIsStrictOrder(s, x, t);
    Lex.LessIsStrictOrder(t, x, s);
  }

  lemma KeyupsCommute(m: map<int, Counter>, g: int, a: int, n: nat, h: int, b: int, k: nat)
    ensures BumpKeyup(BumpKeyup(m, g, a, n), h, b, k) == BumpKeyup(BumpKeyup(m, h, b, k), g, a, n)
  {
    if g == h {
      BumpsCommute(Keyups(m, g), a, n, b, k);
    }
  }

  /** `Add` split into its effect on one radio's counters and on the edge tables. */
  function Touch(acc: Acc, id: int, n: nat, ts: string): Acc {
    acc.(calls := Bump(acc.calls, id, n), seen := See(acc.seen, id, ts))
  }

  lemma TouchesCommute(acc: Acc, a: int, n: nat, s: string, b: int, k: nat, t: string)
    ensures Touch(Touch(acc, a, n, s), b, k, t) == Touch(Touch(acc, b, k, t), a, n, s)
  {
    BumpsCommute(acc.calls, a, n, b, k);
    SeesCommute(acc.seen, a, s, b, t);
  }

  function Tie(acc: Acc, k: Key, n: nat): Acc
    requires Relevant(k)
  {
    if Classify(k.typeName, k.addressing) == Talkgroup
    then acc.(keyups := BumpKeyup(acc.keyups, k.tgt.value, k.src.value, n))
    else acc.(direct := Bump(acc.direct, (k.src.value, k.tgt.value), n))
  }

  lemma TiesCommute(acc: Acc, k: Key, n: nat, l: Key, m: nat)
    requires Relevant(k) && Relevant(l)
    ensures Tie(Tie(acc, k, n), l, m) == Tie(Tie(acc, l, m), k, n)
  {
    KeyupsCommute(acc.keyups, k.tgt.value, k.src.value, n, l.tgt.value, l.src.value, m);
    BumpsCommute(acc.direct, (k.src.value, k.tgt.value), n, (l.src.value, l.tgt.value), m);
  }

  lemma CallsAndSeenCommute(acc: Acc, k: Key, n: nat, s: string, l: Key, m: nat, t: string)
    requires Relevant(k) && Relevant(l)
    ensures Add(Add(acc, k, n, s), l, m, t).calls == Add(Add(acc, l, m, t), k, n, s).calls
    ensures Add(Add(acc, k, n, s), l, m, t).seen == Add(Add(acc, l, m, t), k, n, s).seen
  {
    var a, b, c, d := k.src.value, k.tgt.value, l.src.value, l.tgt.value;
    var kp := Classify(k.typeName, k.addressing) == Private;
    var lp := Classify(l.typeName, l.addressing) == Private;
    var one := Touch(acc, a, n, s);
    TouchesCommute(acc, a, n, s, c, m, t);
    if lp {
      TouchesCommute(Touch(acc, c, m, t), a, n, s, d, m, t);
    }
    if kp {
      TouchesCommute(one, b, n, s, c, m, t);
      if lp {
        TouchesCommute(Touch(one, c, m, t), b, n, s, d, m, t);
      }
    }
  }

  lemma AddsCommute(acc: Acc, k: Key, n: nat, s: string, l: Key, m: nat, t: string)
    ensures Add(Add(acc, k, n, s), l, m, t) == Add(Add(acc, l, m, t), k, n, s)
  {
    if Relevant(k) && Relevant(l) {
      CallsAndSeenCommute(acc, k, n, s, l, m, t);
      TiesCommute(acc, k, n, l, m);
    }
  }

  lemma AddsMerge(acc: Acc, k: Key, n: nat, s: string, m: nat, t: string)
    ensures Add(Add(acc, k, n, s), k, m, t) == Add(acc, k, n + m, MaxText(s, t))
  {
    if Relevant(k) {
      var a, b := k.src.value, k.tgt.value;
      var best := MaxText(s, t);
      BumpsMerge(acc.calls, a, n, m);
      SeesMerge(acc.seen, a, s, t);
      if Classify(k.typeName, k.addressing) == Talkgroup {
        BumpsMerge(Keyups(acc.keyups, b), a, n, m);
      } else {
        BumpsMerge(acc.direct, (a, b), n, m);
        BumpsCommute(Bump(acc.calls, a, n), b, n, a, m);
        BumpsMerge(Bump(acc.calls, a, n + m), b, n, m);
        SeesCommute(See(acc.seen, a, s), b, s, a, t);
        SeesMerge(See(acc.seen, a, best), b, s, t);
      }
    }
  }

  // ---- grouped equals row by row ----

  /** All rows of one key can be taken last and at once. */
  lemma {:induction false} PullOut(rows: seq<Row>, k: Key)
    ensures With(rows, k) == [] ==> OfRows(rows) == OfRows(Without(rows, k))
    ensures With(rows, k) != [] ==>
              OfRows(rows) == Add(OfRows(Without(rows, k)), k, |With(rows, k)|, MaxTs(With(rows, k)))
  {
    if rows == [] {
    } else {
      var front, r := rows[..|rows| - 1], rows[|rows| - 1];
      PullOut(front, k);
      var apart, same := Without(front, k), With(front, k);
      if r.key == k {
        Seqs.Empty(apart);
        assert (same + [r])[..|same|] == same;
        if same == [] {
          assert !Lex.Less(r.ts, "");
          assert MaxText("", r.ts) == r.ts;
        } else {
          AddsMerge(OfRows(apart), k, |same|, MaxTs(same), 1, r.ts);
        }
      } else {
        Seqs.Empty(same);
        assert (apart + [r])[..|apart|] == apart;
        if same != [] {
          AddsCommute(OfRows(apart), k, |same|, MaxTs(same), r.key, 1, r.ts);
        }
      }
    }
  }

  lemma {:induction false} WithOfWithout(rows: seq<Row>, k: Key, l: Key)
    ensures With(Without(rows, k), l) == if k == l then [] else With(rows, l)
  {
    if rows == [] {
    } else {
      var front, r := rows[..|rows| - 1], rows[|rows| - 1];
      WithOfWithout(front, k, l);
      Seqs.Empty(Without(front, k));
      Seqs.Empty(With(front, l));
      if r.key != k {
        assert (Without(front, k) + [r])[..|Without(front, k)|] == Without(front, k);
      }
    }
  }

  lemma {:induction false} RowsOfWithout(rows: seq<Row>, k: Key, j: nat) returns (i: nat)
    requires j < |Without(rows, k)|
    ensures i < |rows| && rows[i] == Without(rows, k)[j] && rows[i].key != k
  {
    var front := rows[..|rows| - 1];
    if j < |Without(front, k)| {
      i := RowsOfWithout(front, k, j);
    } else {
      i := |rows| - 1;
    }
  }

  lemma SummaryStays(rows: seq<Row>, k: Key, g: Group)
    requires Summarises(g, rows) && g.key != k
    ensures Summarises(g, Without(rows, k))
  {
    WithOfWithout(rows, k, g.key);
  }

  lemma KeyStays(rows: seq<Row>, groups: seq<Group>, j: nat)
    requires Grouping(rows, groups) && groups != []
    requires j < |Without(rows, groups[|groups| - 1].key)|
    ensures HasKey(groups[..|groups| - 1], Without(rows, groups[|groups| - 1].key)[j].key)
  {
    var n := RowsOfWithout(rows, groups[|groups| - 1].key, j);
    KeyInFront(groups, rows[n].key);
  }

  lemma GroupingWithoutLast(rows: seq<Row>, groups: seq<Group>)
    requires Grouping(rows, groups) && groups != []
    ensures Grouping(Without(rows, groups[|groups| - 1].key), groups[..|groups| - 1])
  {
    var front, k := groups[..|groups| - 1], groups[|groups| - 1].key;
    var left := Without(rows, k);
    forall i | 0 <= i < |front| ensures Summarises(front[i], left) {
      SummaryStays(rows, k, groups[i]);
    }
    forall j | 0 <= j < |left| ensures HasKey(front, left[j].key) {
      KeyStays(rows, groups, j);
    }
  }

  lemma KeyInFront(groups: seq<Group>, k: Key)
    requires HasKey(groups, k) && groups != [] && k != groups[|groups| - 1].key
    ensures HasKey(groups[..|groups| - 1], k)
  {
    var i :| 0 <= i < |groups| && groups[i].key == k;
    assert groups[..|groups| - 1][i].key == k;
  }

  /** For any rows and any order of the groups, aggregating the groups gives the very accumulators
      of the row-by-row loop; every edge, weight, total and last-seen is computed from these. */
  lemma {:induction false} GroupedEqualsRowByRow(rows: seq<Row>, groups: seq<Group>)
    requires Grouping(rows, groups)
    ensures OfGroups(groups) == OfRows(rows)
    decreases |groups|
  {
    if groups == [] {
      assert rows != [] ==> HasKey(groups, rows[|rows| - 1].key);
    } else {
      var g := groups[|groups| - 1];
      GroupingWithoutLast(rows, groups);
      GroupedEqualsRowByRow(Without(rows, g.key), groups[..|groups| - 1]);
      PullOut(rows, g.key);
    }
  }
}
