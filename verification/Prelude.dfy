/** Small datatypes shared by the other modules. */
module Prelude {

  datatype Option<+T> = None | Some(value: T) {
    function Or(fallback: T): T {
      match this
      case Some(v) => v
      case None => fallback
    }
  }

  datatype Result<+T, +E> = Ok(value: T) | Err(error: E)

  function Min(a: int, b: int): int {
    if a < b then a else b
  }

  function Max(a: int, b: int): int {
    if a < b then b else a
  }
}

/** Plain facts about sequences, kept apart so that proofs can cite them. */
module Seqs {

  lemma Assoc<T>(a: seq<T>, b: seq<T>, c: seq<T>)
    ensures (a + b) + c == a + (b + c)
  {
  }

  lemma DropAppend<T>(a: seq<T>, b: seq<T>, n: nat)
    requires n <= |a|
    ensures (a + b)[n..] == a[n..] + b
  {
  }

  lemma DropDrop<T>(a: seq<T>, m: nat, n: nat)
    requires m + n <= |a|
    ensures a[m..][n..] == a[m + n..]
  {
  }

  lemma TakeSnoc<T>(a: seq<T>, n: nat)
    requires n < |a|
    ensures a[..n + 1] == a[..n] + [a[n]]
    ensures a[..n + 1][..n] == a[..n]
  {
  }

  lemma Whole<T>(a: seq<T>)
    ensures a[..|a|] == a && a[0..] == a && a[..0] == [] && a[|a|..] == []
  {
  }

  lemma Empty<T>(a: seq<T>)
    ensures [] + a == a && a + [] == a
  {
  }

  lemma Three<T>(a: T, b: T, c: T)
    ensures [] + [a] + [b] + [c] == [a, b, c]
  {
  }

  lemma CountSnoc<T>(a: seq<T>, x: T, y: T)
    ensures multiset(a + [x])[y] == multiset(a)[y] + if x == y then 1 else 0
  {
  }

  /** Some element of a set, as iteration over a dictionary picks one. */
  method Pick<T(==)>(s: set<T>) returns (x: T)
    requires s != {}
    ensures x in s
  {
    x :| x in s;
  }

  /** A fixed but arbitrary element. */
  ghost function Choose<T>(s: set<T>): (x: T)
    requires s != {}
    ensures x in s
  {
    var x :| x in s;
    x
  }
}

/** Dictionaries of counts, as Counter and defaultdict(int). */
module Counters {
  import Seqs

  function Get<K>(m: map<K, nat>, k: K): nat {
    if k in m then m[k] else 0
  }

  function Bump<K>(m: map<K, nat>, k: K, n: nat): map<K, nat> {
    m[k := Get(m, k) + n]
  }

  lemma BumpsCommute<K>(m: map<K, nat>, a: K, n: nat, b: K, k: nat)
    ensures Bump(Bump(m, a, n), b, k) == Bump(Bump(m, b, k), a, n)
  {
  }

  lemma BumpsMerge<K>(m: map<K, nat>, a: K, n: nat, k: nat)
    ensures Bump(Bump(m, a, n), a, k) == Bump(m, a, n + k)
  {
  }

  ghost function Sum<K>(m: map<K, nat>): nat {
    if m == map[] then 0 else var k := Seqs.Choose(m.Keys); m[k] + Sum(m - {k})
  }

  lemma {:induction false} SumSplit<K>(m: map<K, nat>, k: K)
    requires k in m
    ensures Sum(m) == m[k] + Sum(m - {k})
    decreases |m|
  {
    var first := Seqs.Choose(m.Keys);
    if k == first {
    } else {
      SumSplit(m - {first}, k);
      SumSplit(m - {k}, first);
      assert m - {first} - {k} == m - {k} - {first};
    }
  }

  lemma SumBump<K>(m: map<K, nat>, k: K, n: nat)
    ensures Sum(Bump(m, k, n)) == Sum(m) + n
  {
    SumSplit(Bump(m, k, n), k);
    if k in m {
      SumSplit(m, k);
      assert Bump(m, k, n) - {k} == m - {k};
    } else {
      assert Bump(m, k, n) - {k} == m;
    }
  }
}
