/** The two pieces of memory of the line parser (backend/parser.py): the clock rebuilt from
    HH:MM:SS, and the radio a position line belongs to.  Lines are already classified. */
module LogParser {
  import opened Prelude
  import opened IsoTime
  import Seqs

  const DAY := 86_400

  datatype Line =
    | Sync(hour: nat, minute: nat, second: nat)
    | SourceAddress(radio: int)        // SRC(24): ...
    | DestinationAddress(radio: int)   // DST(24): ...
    | Position                         // Lat: ... Lon: ...
    | Other

  predicate ValidLine(l: Line) {
    l.Sync? ==> l.hour < 24 && l.minute < 60 && l.second < 60
  }

  /** A naive datetime with whole seconds. */
  datatype Clock = Clock(day: int, hour: nat, minute: nat, second: nat)

  function Seconds(c: Clock): int {
    c.day * DAY + SecondsOf(c.hour, c.minute, c.second)
  }

  predicate ValidClock(c: Clock) {
    c.hour < 24 && c.minute < 60 && c.second < 60
  }

  class Parser {
    var clock: Option<Clock>
    var lrrpSource: Option<int>

    ghost predicate Valid()
      reads this
    {
      clock.Some? ==> ValidClock(clock.value)
    }

    ghost function ClockSeconds(): Option<int>
      reads this
    {
      if clock.Some? then Some(Seconds(clock.value)) else None
    }

    constructor ()
      ensures Valid() && clock == None && lrrpSource == None
    {
      clock, lrrpSource := None, None;
    }

    /** The date is pinned from the previous sync and advanced when the clock wraps. */
    method UpdateTimestamp(h: nat, m: nat, s: nat, today: int)
      requires Valid() && h < 24 && m < 60 && s < 60
      modifies this`clock
      ensures Valid() && clock.Some?
      ensures ClockSeconds() == Some(Rebuild(old(ClockSeconds()), SecondsOf(h, m, s), today))
    {
      var day := today;
      if clock.Some? {
        var prev := clock.value;
        day := prev.day;
        if h < prev.hour || (h == prev.hour && (m < prev.minute || (m == prev.minute && s < prev.second))) {
          day := day + 1;
        }
        SplitSeconds(prev);
      }
      clock := Some(Clock(day, h, m, s));
    }

    /** One line; a position line returns the radio it is attributed to, if any. */
    method ParseLine(l: Line, today: int) returns (reporter: Option<Option<int>>)
      requires Valid() && ValidLine(l)
      modifies this
      ensures Valid()
      ensures lrrpSource == Binding(old(lrrpSource), l)
      ensures reporter == if l.Position? then Some(old(lrrpSource)) else None
      ensures !l.Sync? ==> clock == old(clock)
      ensures l.Sync? ==>
                ClockSeconds() == Some(Rebuild(old(ClockSeconds()), SecondsOf(l.hour, l.minute, l.second), today))
      ensures old(clock).Some? ==> clock.Some? && Seconds(old(clock).value) <= Seconds(clock.value)
    {
      reporter := None;
      match l
      case Sync(h, m, s) =>
        ghost var before := ClockSeconds();
        UpdateTimestamp(h, m, s, today);
        if before.Some? {
          ClockNeverGoesBack(before.value, SecondsOf(h, m, s), today);
        }
      case SourceAddress(radio) =>
        lrrpSource := Some(radio);
      case Position =>
        reporter := Some(lrrpSource);
        lrrpSource := None;
      case _ =>
    }
  }

  lemma SplitSeconds(c: Clock)
    requires ValidClock(c)
    ensures Seconds(c) / DAY == c.day && Seconds(c) % DAY == SecondsOf(c.hour, c.minute, c.second)
  {
  }

  // ---- the clock ----

  /** The next absolute second from a second of the day. */
  function Rebuild(prev: Option<int>, second: nat, today: int): int {
    match prev
    case None => today * DAY + second
    case Some(p) => (p / DAY + if second < p % DAY then 1 else 0) * DAY + second
  }

  lemma ClockNeverGoesBack(p: int, second: nat, today: int)
    requires second < DAY
    ensures p <= Rebuild(Some(p), second, today) < p + DAY
    ensures Rebuild(Some(p), second, today) % DAY == second
  {
    if second < p % DAY {
      assert Rebuild(Some(p), second, today) == p / DAY * DAY + DAY + second;
    }
  }

  /** The clock after the sync lines of true times `ts`, of which the log shows only the time of day. */
  function Rebuilt(ts: seq<int>, today: int): Option<int> {
    if ts == [] then None
    else Some(Rebuild(Rebuilt(ts[..|ts| - 1], today), ts[|ts| - 1] % DAY, today))
  }

  lemma StepIsExactIff(p: int, t: int, today: int)
    ensures Rebuild(Some(p), t % DAY, today) == t <==> p <= t < p + DAY
  {
    ClockNeverGoesBack(p, t % DAY, today);
    var r := Rebuild(Some(p), t % DAY, today);
    if p <= t < p + DAY {
      SameResidueClose(r, t);
    }
  }

  lemma SameResidueClose(a: int, b: int)
    requires a % DAY == b % DAY && -DAY < a - b < DAY
    ensures a == b
  {
    assert a == a / DAY * DAY + a % DAY && b == b / DAY * DAY + b % DAY;
    assert a - b == (a / DAY - b / DAY) * DAY;
  }

  /** The first n rebuilt times are the true ones. */
  predicate Right(ts: seq<int>, today: int, n: nat)
    requires n <= |ts|
  {
    forall i | 0 < i <= n :: Rebuilt(ts[..i], today) == Some(ts[i - 1])
  }

  /** The first n true sync times never decrease and never lie a day or more apart. */
  predicate Steady(ts: seq<int>, n: nat)
    requires n <= |ts|
  {
    forall i | 0 < i < n :: ts[i - 1] <= ts[i] < ts[i - 1] + DAY
  }

  lemma RebuiltSnoc(ts: seq<int>, n: nat, today: int)
    requires n < |ts|
    ensures Rebuilt(ts[..n + 1], today) == Some(Rebuild(Rebuilt(ts[..n], today), ts[n] % DAY, today))
  {
    Seqs.TakeSnoc(ts, n);
  }

  lemma {:induction false} ClockIsRightUpto(ts: seq<int>, today: int, n: nat)
    requires n <= |ts| && (ts != [] ==> ts[0] / DAY == today)
    ensures Right(ts, today, n) <==> Steady(ts, n)
  {
    if n == 1 {
      RebuiltSnoc(ts, 0, today);
      assert ts[..0] == [];
      assert ts[0] == ts[0] / DAY * DAY + ts[0] % DAY;
    } else if 1 < n {
      ClockIsRightUpto(ts, today, n - 1);
      RebuiltSnoc(ts, n - 1, today);
      StepIsExactIff(ts[n - 2], ts[n - 1], today);
    }
  }

  /** With the first date right, every rebuilt time is the true one if and only if true sync times
      never decrease and never lie a day or more apart. */
  lemma ClockIsRightIff(ts: seq<int>, today: int)
    requires ts != [] ==> ts[0] / DAY == today
    ensures (forall i | 0 < i <= |ts| :: Rebuilt(ts[..i], today) == Some(ts[i - 1]))
            <==> (forall i | 0 < i < |ts| :: ts[i - 1] <= ts[i] < ts[i - 1] + DAY)
  {
    ClockIsRightUpto(ts, today, |ts|);
  }

  // ---- the binding of positions ----

  function Binding(bound: Option<int>, l: Line): Option<int> {
    match l
    case SourceAddress(radio) => Some(radio)
    case Position => None
    case _ => bound
  }

  function Bound(lines: seq<Line>): Option<int> {
    if lines == [] then None else Binding(Bound(lines[..|lines| - 1]), lines[|lines| - 1])
  }

  /** Line j is the last SRC line before i, with no position in between. */
  predicate Reaches(lines: seq<Line>, j: nat, i: nat) {
    && j < i <= |lines| && lines[j].SourceAddress?
    && forall k | j < k < i :: !lines[k].SourceAddress? && !lines[k].Position?
  }

  /** The radio a position at `i` is attributed to is that of the latest SRC line since the previous
      position, and there is none exactly when no such line exists; the position uses the line up. */
  lemma {:induction false} PositionTakesLatestSource(lines: seq<Line>, i: nat)
    requires i <= |lines|
    ensures forall j: nat | Reaches(lines, j, i) :: Bound(lines[..i]) == Some(lines[j].radio)
    ensures Bound(lines[..i]).Some? ==> exists j: nat :: Reaches(lines, j, i)
    ensures forall j: nat, later: nat | i < later <= |lines| && lines[i].Position? && Reaches(lines, j, i) ::
              !Reaches(lines, j, later)
  {
    if i == 0 {
    } else {
      PositionTakesLatestSource(lines, i - 1);
      Seqs.TakeSnoc(lines, i - 1);
      var l := lines[i - 1];
      if l.SourceAddress? {
        assert Reaches(lines, i - 1, i);
      } else if !l.Position? && Bound(lines[..i]).Some? {
        var j: nat :| Reaches(lines, j, i - 1);
        assert Reaches(lines, j, i);
      }
      forall j: nat | Reaches(lines, j, i) ensures Bound(lines[..i]) == Some(lines[j].radio) {
        if j != i - 1 {
          assert !lines[i - 1].SourceAddress? && !lines[i - 1].Position?;
          assert Reaches(lines, j, i - 1);
        }
      }
    }
  }
}
