/**
  Fixed-width positional notation and lexicographic order, the facts under every ordered key:
  big-endian bytes (base 256) and zero-padded decimals (base 10).
 */
module Digits {

  function Pow(base: nat, k: nat): (p: nat)
    requires base >= 2
    ensures p > 0
  {
    if k == 0 then 1 else base * Pow(base, k - 1)
  }

  // The k digits of n, most significant first; n has no more than k digits
  function ToDigits(base: nat, n: nat, k: nat): (s: seq<nat>)
    requires base >= 2
    ensures |s| == k
  {
    if k == 0 then [] else [Quotient(n, Pow(base, k - 1))] + ToDigits(base, n % Pow(base, k - 1), k - 1)
  }

  function Quotient(n: nat, p: nat): (q: nat)
    requires p > 0
  {
    n / p
  }

  lemma {:induction false} DigitBound(base: nat, n: nat, k: nat)
    requires base >= 2 && n < Pow(base, k)
    ensures forall i :: 0 <= i < k ==> ToDigits(base, n, k)[i] < base
  {
    if k > 0 {
      var _, r := Split(base, n, k);
      DigitBound(base, r, k - 1);
    }
  }

  function Value(base: nat, s: seq<nat>): nat
    requires base >= 2
  {
    if s == [] then 0 else s[0] * Pow(base, |s| - 1) + Value(base, s[1..])
  }

  lemma MulMonotone(a: nat, b: nat, p: nat)
    requires a <= b
    ensures a * p <= b * p
  {
  }

  lemma LeadingDigit(base: nat, p: nat, n: nat)
    requires p > 0 && n < base * p
    ensures n / p < base && n % p < p && n == (n / p) * p + n % p
  {
    if n / p >= base {
      MulMonotone(base, n / p, p);
    }
  }

  lemma {:induction false} ValueOfDigits(base: nat, n: nat, k: nat)
    requires base >= 2 && n < Pow(base, k)
    ensures Value(base, ToDigits(base, n, k)) == n
  {
    if k > 0 {
      var d, r := Split(base, n, k);
      ValueOfDigits(base, r, k - 1);
      assert ToDigits(base, n, k)[1..] == ToDigits(base, r, k - 1);
    }
  }

  lemma {:induction false} ValueBound(base: nat, s: seq<nat>)
    requires base >= 2 && forall i :: 0 <= i < |s| ==> s[i] < base
    ensures Value(base, s) < Pow(base, |s|)
  {
    if s != [] {
      var p := Pow(base, |s| - 1);
      ValueBound(base, s[1..]);
      MulMonotone(s[0] + 1, base, p);
      assert (s[0] + 1) * p == s[0] * p + p;
    }
  }

  lemma {:induction false} DigitsOfValue(base: nat, s: seq<nat>)
    requires base >= 2 && forall i :: 0 <= i < |s| ==> s[i] < base
    ensures Value(base, s) < Pow(base, |s|)
    ensures ToDigits(base, Value(base, s), |s|) == s
  {
    ValueBound(base, s);
    if s != [] {
      var p := Pow(base, |s| - 1);
      var rest := Value(base, s[1..]);
      ValueBound(base, s[1..]);
      DigitsOfValue(base, s[1..]);
      DivideOut(s[0], p, rest);
      assert s == [s[0]] + s[1..];
    }
  }

  lemma DivideOut(d: nat, p: nat, r: nat)
    requires r < p
    ensures (d * p + r) / p == d && (d * p + r) % p == r
  {
    var n := d * p + r;
    LeadingDigit(d + 1, p, n);
    var q := n / p;
    if q < d {
      MulMonotone(q + 1, d, p);
    }
  }

  /** Lexicographic order, a proper prefix first: bytes.Compare and Go's string order. */
  predicate Less(a: seq<nat>, b: seq<nat>) {
    b != [] && (a == [] || a[0] < b[0] || (a[0] == b[0] && Less(a[1..], b[1..])))
  }

  predicate Leq(a: seq<nat>, b: seq<nat>) {
    a == b || Less(a, b)
  }

  lemma {:induction false} LessIrreflexive(a: seq<nat>)
    ensures !Less(a, a)
  {
    if a != [] {
      LessIrreflexive(a[1..]);
    }
  }

  lemma {:induction false} LessTransitive(a: seq<nat>, b: seq<nat>, c: seq<nat>)
    requires Less(a, b) && Less(b, c)
    ensures Less(a, c)
  {
    if a != [] && a[0] == b[0] == c[0] {
      LessTransitive(a[1..], b[1..], c[1..]);
    }
  }

  lemma NotBoth(a: seq<nat>, b: seq<nat>)
    ensures Leq(a, b) ==> !Less(b, a)
  {
    LessIrreflexive(a);
    if Less(a, b) && Less(b, a) {
      LessTransitive(a, b, a);
    }
  }

  lemma {:induction false} LessTotal(a: seq<nat>, b: seq<nat>)
    ensures a == b || Less(a, b) || Less(b, a)
  {
    if a != [] && b != [] && a[0] == b[0] {
      LessTotal(a[1..], b[1..]);
      assert a == [a[0]] + a[1..] && b == [b[0]] + b[1..];
    }
  }

  lemma {:induction false} LessCommonPrefix(p: seq<nat>, a: seq<nat>, b: seq<nat>)
    ensures Less(p + a, p + b) <==> Less(a, b)
  {
    if p == [] {
      assert p + a == a && p + b == b;
    } else {
      assert (p + a)[1..] == p[1..] + a && (p + b)[1..] == p[1..] + b;
      LessCommonPrefix(p[1..], a, b);
    }
  }

  /** The order of two strings neither of which extends the other survives any suffixes. */
  lemma {:induction false} LessExtends(a: seq<nat>, b: seq<nat>, x: seq<nat>, y: seq<nat>)
    requires Less(a, b) && !(a <= b)
    ensures Less(a + x, b + y)
  {
    assert (a + x)[1..] == a[1..] + x && (b + y)[1..] == b[1..] + y;
    if a[0] == b[0] {
      LessExtends(a[1..], b[1..], x, y);
    }
  }

  lemma {:induction false} PrefixLeq(a: seq<nat>, x: seq<nat>)
    ensures Leq(a, a + x)
  {
    if x == [] {
      assert a + x == a;
    } else if a != [] {
      assert (a + x)[1..] == a[1..] + x;
      PrefixLeq(a[1..], x);
    }
  }

  /** Numeric order is lexicographic order of the fixed-width digits. */
  lemma {:induction false} DigitsOrder(base: nat, m: nat, n: nat, k: nat)
    requires base >= 2 && m < n < Pow(base, k)
    ensures Less(ToDigits(base, m, k), ToDigits(base, n, k))
  {
    var d, r := Split(base, m, k);
    var e, q := Split(base, n, k);
    QuotientOrder(Pow(base, k - 1), d, r, e, q);
    if d == e {
      DigitsOrder(base, r, q, k - 1);
    }
    ConsOrder(d, e, ToDigits(base, r, k - 1), ToDigits(base, q, k - 1));
  }

  // The leading digit and what is left of the number
  lemma Split(base: nat, n: nat, k: nat) returns (d: nat, r: nat)
    requires base >= 2 && k > 0 && n < Pow(base, k)
    ensures d < base && r < Pow(base, k - 1) && n == d * Pow(base, k - 1) + r
    ensures ToDigits(base, n, k) == [d] + ToDigits(base, r, k - 1)
  {
    var p := Pow(base, k - 1);
    LeadingDigit(base, p, n);
    d, r := n / p, n % p;
  }

  lemma ConsOrder(x: nat, y: nat, a: seq<nat>, b: seq<nat>)
    requires x < y || (x == y && Less(a, b))
    ensures Less([x] + a, [y] + b)
  {
    assert ([x] + a)[1..] == a && ([y] + b)[1..] == b;
  }

  lemma QuotientOrder(p: nat, d: nat, r: nat, e: nat, q: nat)
    requires r < p && q < p && d * p + r < e * p + q
    ensures d < e || (d == e && r < q)
  {
    if d > e {
      MulMonotone(e + 1, d, p);
    }
  }

  lemma DigitsOrderIff(base: nat, m: nat, n: nat, k: nat)
    requires base >= 2 && m < Pow(base, k) && n < Pow(base, k)
    ensures Less(ToDigits(base, m, k), ToDigits(base, n, k)) <==> m < n
    ensures ToDigits(base, m, k) == ToDigits(base, n, k) <==> m == n
  {
    var a, b := ToDigits(base, m, k), ToDigits(base, n, k);
    LessIrreflexive(a);
    if m < n {
      DigitsOrder(base, m, n, k);
    } else if n < m {
      DigitsOrder(base, n, m, k);
      if Less(a, b) {
        LessTransitive(a, b, a);
      }
    }
  }
}
