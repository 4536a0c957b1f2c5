/** Code-point order on strings: Python's `<` on str and SQLite's BINARY collation. */
module Lex {

  predicate Less(a: string, b: string) {
    b != "" && (a == "" || a[0] < b[0] || (a[0] == b[0] && Less(a[1..], b[1..])))
  }

  predicate AtMost(a: string, b: string) {
    !Less(b, a)
  }

  lemma {:induction false} LessIsStrictOrder(a: string, b: string, c: string)
    ensures !Less(a, a)
    ensures Less(a, b) ==> !Less(b, a)
    ensures Less(a, b) && Less(b, c) ==> Less(a, c)
    ensures Less(a, b) || a == b || Less(b, a)
  {
    if a != "" && b != "" {
      if c != "" {
        LessIsStrictOrder(a[1..], b[1..], c[1..]);
      } else {
        LessIsStrictOrder(a[1..], b[1..], c);
      }
      if a[0] == b[0] && a[1..] == b[1..] {
        assert a == [a[0]] + a[1..] == b;
      }
    } else if a != "" {
      LessIsStrictOrder(a[1..], b, c);
    }
  }

  /** With equally long heads, the heads decide unless they are equal. */
  lemma {:induction false} LessOfAppend(a: string, b: string, c: string, d: string)
    requires |a| == |c|
    ensures Less(a + b, c + d) <==> Less(a, c) || (a == c && Less(b, d))
  {
    if a == "" {
      assert a + b == b && c + d == d;
    } else {
      LessOfAppend(a[1..], b, c[1..], d);
      assert (a + b)[1..] == a[1..] + b && (c + d)[1..] == c[1..] + d;
      if a[0] == c[0] {
        assert a == c <==> a[1..] == c[1..] by {
          assert a == [a[0]] + a[1..] && c == [c[0]] + c[1..];
        }
      }
    }
  }

  // ---- fixed-width decimals ----

  function Pow10(w: nat): nat {
    if w == 0 then 1 else 10 * Pow10(w - 1)
  }

  function Digit(d: nat): char
    requires d < 10
  {
    '0' + d as char
  }

  predicate IsDigit(c: char) {
    '0' <= c <= '9'
  }

  /** n with leading zeros to width w. */
  function Pad(n: nat, w: nat): (s: string)
    requires n < Pow10(w)
    ensures |s| == w
    ensures forall i | 0 <= i < w :: IsDigit(s[i])
  {
    if w == 0 then "" else Pad(n / 10, w - 1) + [Digit(n % 10)]
  }

  lemma {:induction false} PadOrder(n: nat, m: nat, w: nat)
    requires n < Pow10(w) && m < Pow10(w)
    ensures Less(Pad(n, w), Pad(m, w)) <==> n < m
    ensures Pad(n, w) == Pad(m, w) <==> n == m
  {
    if w == 0 {
    } else {
      PadOrder(n / 10, m / 10, w - 1);
      LessOfAppend(Pad(n / 10, w - 1), [Digit(n % 10)], Pad(m / 10, w - 1), [Digit(m % 10)]);
      assert Digit(n % 10) < Digit(m % 10) <==> n % 10 < m % 10;
      assert Pad(n, w)[..w - 1] == Pad(n / 10, w - 1) && Pad(m, w)[..w - 1] == Pad(m / 10, w - 1);
      assert Pad(n, w)[w - 1] == Digit(n % 10) && Pad(m, w)[w - 1] == Digit(m % 10);
    }
  }
}
