/** A text file read line by line, newline included. */
module JsonLines {
  import Seqs

  /** Every line is ended by a newline. */
  predicate WellFormed(c: string) {
    c == "" || c[|c| - 1] == '\n'
  }

  function FirstLine(c: string): (l: string)
    requires c != ""
    ensures 1 <= |l| <= |c| && l == c[..|l|]
    ensures WellFormed(c) ==> l[|l| - 1] == '\n' && WellFormed(c[|l|..])
  {
    if c[0] == '\n' || |c| == 1 then [c[0]] else [c[0]] + FirstLine(c[1..])
  }

  function Lines(c: string): seq<string>
    decreases |c|
  {
    if c == "" then [] else [FirstLine(c)] + Lines(c[|FirstLine(c)|..])
  }

  function Flat(ls: seq<string>): string {
    if ls == [] then "" else ls[0] + Flat(ls[1..])
  }

  lemma LinesStep(c: string)
    requires c != ""
    ensures Lines(c) == [FirstLine(c)] + Lines(c[|FirstLine(c)|..])
  {
  }

  lemma FlatCons(l: string, ls: seq<string>)
    ensures Flat([l] + ls) == l + Flat(ls)
  {
    assert ([l] + ls)[1..] == ls;
  }

  lemma TakeDrop(c: string, n: nat)
    requires n <= |c|
    ensures c == c[..n] + c[n..]
  {
  }

  lemma {:induction false} FlatOfLines(c: string)
    ensures Flat(Lines(c)) == c
    decreases |c|
  {
    if c == "" {
    } else {
      var l := FirstLine(c);
      FlatOfLines(c[|l|..]);
      LinesStep(c);
      FlatCons(l, Lines(c[|l|..]));
      TakeDrop(c, |l|);
    }
  }

  lemma {:induction false} FlatAppend(a: seq<string>, b: seq<string>)
    ensures Flat(a + b) == Flat(a) + Flat(b)
  {
    if a == [] {
      assert a + b == b;
    } else {
      FlatAppend(a[1..], b);
      Seqs.DropAppend(a, b, 1);
      Seqs.Assoc(a[0], Flat(a[1..]), Flat(b));
    }
  }

  lemma {:induction false} FirstLineStable(a: string, b: string)
    requires a != "" && WellFormed(a)
    ensures FirstLine(a + b) == FirstLine(a)
  {
    if a[0] == '\n' || |a| == 1 {
    } else {
      FirstLineStable(a[1..], b);
      assert (a + b)[1..] == a[1..] + b;
    }
  }

  lemma {:induction false} LinesAppend(a: string, b: string)
    requires WellFormed(a)
    ensures Lines(a + b) == Lines(a) + Lines(b)
    decreases |a|
  {
    if a == "" {
      Seqs.Empty(b);
    } else {
      var l, rest := FirstLine(a), a[|FirstLine(a)|..];
      FirstLineStable(a, b);
      LinesAppend(rest, b);
      Seqs.DropAppend(a, b, |l|);
      LinesStep(a + b);
      LinesStep(a);
      Seqs.Assoc([l], Lines(rest), Lines(b));
    }
  }

  /** A newline-free text followed by a newline is one line. */
  lemma {:induction false} OneLine(t: string)
    requires '\n' !in t
    ensures Lines(t + "\n") == [t + "\n"] && WellFormed(t + "\n")
  {
    FirstIsAll(t);
    assert (t + "\n")[|t + "\n"|..] == "";
  }

  lemma {:induction false} FirstIsAll(t: string)
    requires '\n' !in t
    ensures FirstLine(t + "\n") == t + "\n"
  {
    if t == "" {
      assert t + "\n" == "\n";
    } else {
      FirstIsAll(t[1..]);
      assert (t + "\n")[1..] == t[1..] + "\n";
    }
  }

  /** What counting newline bytes counts. */
  function Newlines(c: string): nat {
    if c == "" then 0 else (if c[0] == '\n' then 1 else 0) + Newlines(c[1..])
  }

  lemma {:induction false} NewlinesCountLines(c: string)
    requires WellFormed(c)
    ensures Newlines(c) == |Lines(c)|
    decreases |c|
  {
    if c == "" {
    } else {
      var l := FirstLine(c);
      NewlinesCountLines(c[|l|..]);
      NewlinesOfFirst(c);
    }
  }

  lemma {:induction false} NewlinesOfFirst(c: string)
    requires c != "" && WellFormed(c)
    ensures Newlines(c) == 1 + Newlines(c[|FirstLine(c)|..])
  {
    if c[0] == '\n' {
    } else {
      NewlinesOfFirst(c[1..]);
      assert c[1..][|FirstLine(c[1..])|..] == c[|FirstLine(c)|..];
    }
  }
}
