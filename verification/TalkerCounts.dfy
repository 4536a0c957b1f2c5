/** What the accumulators of the talker graph count, row by row and in plain terms
    (backend/network.py). */
module TalkerCounts {
  import opened Prelude
  import opened Counters
  import opened TalkerGraph
  import opened TalkerEdges
  import Lex
  import Seqs

  /** Both ids known and real; id 0 is the decoder's placeholder. */
  predicate HasIds(k: Key) {
    k.src.Some? && k.tgt.Some? && k.src.value != 0 && k.tgt.value != 0
  }

  predicate Addressed(k: Key) {
    k.typeName in {"preamble_csbk", "data_header"}
  }

  predicate ToGroup(k: Key) {
    HasIds(k) && (k.typeName == "voice_call" || (Addressed(k) && k.addressing == Some("Group")))
  }

  predicate ToRadio(k: Key) {
    HasIds(k) && (k.typeName == "lrrp_request"
                  || (Addressed(k) && k.addressing in {Some("Individual"), Some("Indiv")}))
  }

  function Count(rows: seq<Row>, p: Key -> bool): nat {
    if rows == [] then 0 else Count(rows[..|rows| - 1], p) + if p(rows[|rows| - 1].key) then 1 else 0
  }

  function KeyupsOf(radio: int, tg: int): Key -> bool {
    k => ToGroup(k) && k.src == Some(radio) && k.tgt == Some(tg)
  }

  function CallsBetween(a: int, b: int): Key -> bool {
    k => ToRadio(k) && k.src == Some(a) && k.tgt == Some(b)
  }

  function SentBy(radio: int): Key -> bool {
    k => (ToGroup(k) || ToRadio(k)) && k.src == Some(radio)
  }

  function ReceivedBy(radio: int): Key -> bool {
    k => ToRadio(k) && k.tgt == Some(radio)
  }

  lemma KindsMean(k: Key)
    ensures ToGroup(k) <==> Relevant(k) && Classify(k.typeName, k.addressing) == Talkgroup
    ensures ToRadio(k) <==> Relevant(k) && Classify(k.typeName, k.addressing) == Private
  {
  }

  /** A radio's keyups on a talkgroup are its group rows there, and the tables hold no others. */
  lemma {:induction false} KeyupsAreRows(rows: seq<Row>, tg: int, radio: int)
    ensures var per := Keyups(OfRows(rows).keyups, tg);
            && Get(per, radio) == Count(rows, KeyupsOf(radio, tg))
            && (radio in per <==> 0 < Count(rows, KeyupsOf(radio, tg)))
  {
    if rows == [] {
    } else {
      KeyupsAreRows(rows[..|rows| - 1], tg, radio);
      KindsMean(rows[|rows| - 1].key);
    }
  }

  /** A pair's direct count is its private rows in that direction. */
  lemma {:induction false} DirectIsRows(rows: seq<Row>, a: int, b: int)
    ensures Get(OfRows(rows).direct, (a, b)) == Count(rows, CallsBetween(a, b))
    ensures (a, b) in OfRows(rows).direct <==> 0 < Count(rows, CallsBetween(a, b))
  {
    if rows == [] {
    } else {
      DirectIsRows(rows[..|rows| - 1], a, b);
      KindsMean(rows[|rows| - 1].key);
    }
  }

  /** A radio's calls are the rows it sent and the private rows it was sent. */
  lemma {:induction false} CallsAreRows(rows: seq<Row>, radio: int)
    ensures Get(OfRows(rows).calls, radio) == Count(rows, SentBy(radio)) + Count(rows, ReceivedBy(radio))
  {
    if rows == [] {
    } else {
      CallsAreRows(rows[..|rows| - 1], radio);
      KindsMean(rows[|rows| - 1].key);
    }
  }

  predicate Names(k: Key, radio: int) {
    ((ToGroup(k) || ToRadio(k)) && k.src == Some(radio)) || (ToRadio(k) && k.tgt == Some(radio))
  }

  /** The latest timestamp of the rows that name the radio, None when they have none. */
  ghost predicate IsLast(rows: seq<Row>, radio: int, last: Option<string>) {
    match last
    case Some(ts) =>
      && ts != "" && (exists i :: 0 <= i < |rows| && Names(rows[i].key, radio) && rows[i].ts == ts)
      && forall i | 0 <= i < |rows| && Names(rows[i].key, radio) :: !Lex.Less(ts, rows[i].ts)
    case None => forall i | 0 <= i < |rows| && Names(rows[i].key, radio) :: rows[i].ts == ""
  }

  function Last(seen: map<int, string>, radio: int): Option<string> {
    if radio in seen then Some(seen[radio]) else None
  }

  /** A radio's last-seen is the latest timestamp of the rows that name it, absent when there is none. */
  lemma {:induction false} SeenIsLatestRow(rows: seq<Row>, radio: int)
    ensures IsLast(rows, radio, Last(OfRows(rows).seen, radio))
  {
    if rows == [] {
    } else {
      var front, r := rows[..|rows| - 1], rows[|rows| - 1];
      SeenIsLatestRow(front, radio);
      AddSees(OfRows(front), r, radio);
      LastStays(front, r, radio, Last(OfRows(front).seen, radio));
      assert rows == front + [r];
    }
  }

  function Later(last: Option<string>, ts: string): Option<string> {
    if Lex.Less(last.Or(""), ts) then Some(ts) else last
  }

  lemma AddSees(acc: Acc, r: Row, radio: int)
    ensures Last(Add(acc, r.key, 1, r.ts).seen, radio)
            == if Names(r.key, radio) then Later(Last(acc.seen, radio), r.ts) else Last(acc.seen, radio)
  {
    KindsMean(r.key);
    Lex.LessIsStrictOrder(r.ts, r.ts, r.ts);
  }

  lemma LastStays(rows: seq<Row>, r: Row, radio: int, last: Option<string>)
    requires IsLast(rows, radio, last)
    ensures IsLast(rows + [r], radio, if Names(r.key, radio) then Later(last, r.ts) else last)
  {
    var longer, was := rows + [r], last.Or("");
    var now := if Names(r.key, radio) then Later(last, r.ts) else last;
    if last.Some? {
      var i :| 0 <= i < |rows| && Names(rows[i].key, radio) && rows[i].ts == was;
      assert longer[i] == rows[i];
    }
    assert longer[|rows|] == r;
    Lex.LessIsStrictOrder("", r.ts, "");
    Lex.LessIsStrictOrder(r.ts, r.ts, r.ts);
    forall i | 0 <= i < |longer| && Names(longer[i].key, radio)
      ensures if now.Some? then !Lex.Less(now.value, longer[i].ts) else longer[i].ts == ""
    {
      Lex.LessIsStrictOrder(was, r.ts, longer[i].ts);
      assert i < |rows| ==> longer[i] == rows[i];
    }
  }

  // ---- bounds on a group edge ----

  /** A radio's keyups on some talkgroups. */
  ghost function KeyupsOn(keyups: map<int, Counter>, tgs: set<int>, radio: int): nat {
    if tgs == {} then 0
    else var tg := Seqs.Choose(tgs); Get(Keyups(keyups, tg), radio) + KeyupsOn(keyups, tgs - {tg}, radio)
  }

  lemma {:induction false} KeyupsOnSplit(keyups: map<int, Counter>, tgs: set<int>, radio: int, tg: int)
    requires tg in tgs
    ensures KeyupsOn(keyups, tgs, radio) == Get(Keyups(keyups, tg), radio) + KeyupsOn(keyups, tgs - {tg}, radio)
    decreases |tgs|
  {
    var t := Seqs.Choose(tgs);
    if t == tg {
    } else {
      KeyupsOnSplit(keyups, tgs - {t}, radio, tg);
      KeyupsOnSplit(keyups, tgs - {tg}, radio, t);
      assert tgs - {t} - {tg} == tgs - {tg} - {t};
    }
  }

  lemma {:induction false} SameKeyupsElsewhere(before: map<int, Counter>, after: map<int, Counter>, tgs: set<int>, radio: int)
    requires forall tg | tg in tgs :: Get(Keyups(before, tg), radio) == Get(Keyups(after, tg), radio)
    ensures KeyupsOn(before, tgs, radio) == KeyupsOn(after, tgs, radio)
    decreases |tgs|
  {
    if tgs == {} {
    } else {
      SameKeyupsElsewhere(before, after, tgs - {Seqs.Choose(tgs)}, radio);
    }
  }

  lemma {:induction false} KeyupsOnAreRows(rows: seq<Row>, tgs: set<int>, radio: int)
    ensures KeyupsOn(OfRows(rows).keyups, tgs, radio) <= Count(rows, SentBy(radio))
  {
    if rows == [] {
      SameKeyupsElsewhere(map[], map[], tgs, radio);
      NoKeyups(tgs, radio);
    } else {
      var front, k := rows[..|rows| - 1], rows[|rows| - 1].key;
      KeyupsOnAreRows(front, tgs, radio);
      KindsMean(k);
      var before, after := OfRows(front).keyups, OfRows(rows).keyups;
      if ToGroup(k) && k.tgt.value in tgs {
        var tg := k.tgt.value;
        KeyupsOnSplit(before, tgs, radio, tg);
        KeyupsOnSplit(after, tgs, radio, tg);
        SameKeyupsElsewhere(before, after, tgs - {tg}, radio);
      } else {
        SameKeyupsElsewhere(before, after, tgs, radio);
      }
    }
  }

  lemma {:induction false} NoKeyups(tgs: set<int>, radio: int)
    ensures KeyupsOn(map[], tgs, radio) == 0
    decreases |tgs|
  {
    if tgs == {} {
    } else {
      NoKeyups(tgs - {Seqs.Choose(tgs)}, radio);
    }
  }

  lemma {:induction false} MinsAreBelow(keyups: map<int, Counter>, tgs: set<int>, a: int, b: int)
    requires tgs <= SharedTgs(keyups, a, b)
    requires forall tg | tg in tgs :: 0 < keyups[tg][a] && 0 < keyups[tg][b]
    ensures |tgs| <= SumMin(keyups, tgs, a, b) <= KeyupsOn(keyups, tgs, a)
    ensures SumMin(keyups, tgs, a, b) <= KeyupsOn(keyups, tgs, b)
    decreases |tgs|
  {
    if tgs == {} {
    } else {
      MinsAreBelow(keyups, tgs - {Seqs.Choose(tgs)}, a, b);
    }
  }

  /** A group edge weighs at least one for each talkgroup on which both radios have group rows, and never
      more than the rows that either of them sent. */
  lemma GroupWeightBounds(rows: seq<Row>, a: int, b: int)
    ensures var keyups := OfRows(rows).keyups;
            var tgs := SharedTgs(keyups, a, b);
            && (forall tg :: tg in tgs <==> 0 < Count(rows, KeyupsOf(a, tg)) && 0 < Count(rows, KeyupsOf(b, tg)))
            && |tgs| <= SumMin(keyups, tgs, a, b)
            && SumMin(keyups, tgs, a, b) <= Count(rows, SentBy(a)) && SumMin(keyups, tgs, a, b) <= Count(rows, SentBy(b))
  {
    var keyups := OfRows(rows).keyups;
    var tgs := SharedTgs(keyups, a, b);
    forall tg ensures tg in tgs <==> 0 < Count(rows, KeyupsOf(a, tg)) && 0 < Count(rows, KeyupsOf(b, tg))
              ensures tg in tgs ==> 0 < keyups[tg][a] && 0 < keyups[tg][b]
    {
      KeyupsAreRows(rows, tg, a);
      KeyupsAreRows(rows, tg, b);
    }
    MinsAreBelow(keyups, tgs, a, b);
    KeyupsOnAreRows(rows, tgs, a);
    KeyupsOnAreRows(rows, tgs, b);
  }

  // ---- private rows ----

  function AnyPrivate(): Key -> bool {
    k => ToRadio(k)
  }

  /** The private weights together are the private rows with both ids non-zero. */
  lemma {:induction false} PrivateWeightIsRowCount(rows: seq<Row>)
    ensures Sum(OfRows(rows).direct) == Count(rows, AnyPrivate())
  {
    if rows == [] {
    } else {
      var front, k := rows[..|rows| - 1], rows[|rows| - 1].key;
      PrivateWeightIsRowCount(front);
      KindsMean(k);
      if ToRadio(k) {
        SumBump(OfRows(front).direct, (k.src.value, k.tgt.value), 1);
      }
    }
  }
}
