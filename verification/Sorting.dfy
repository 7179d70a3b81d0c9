/** Sets listed in the byte order of their encodings, as the databases and sort.Strings deliver them. */
module Sorting {
  import opened Digits

  ghost predicate SortedBy<T(!new)>(enc: T -> seq<nat>, ks: seq<T>) {
    forall i, j :: 0 <= i < j < |ks| ==> Less(enc(ks[i]), enc(ks[j]))
  }

  ghost predicate Injective<T(!new)>(enc: T -> seq<nat>) {
    forall a, b :: enc(a) == enc(b) ==> a == b
  }

  /** ks holds every element of s once, in increasing order. */
  ghost predicate Lists<T(!new)>(enc: T -> seq<nat>, ks: seq<T>, s: set<T>) {
    SortedBy(enc, ks) && forall k :: k in ks <==> k in s
  }

  lemma ListsTail<T(!new)>(enc: T -> seq<nat>, ks: seq<T>, s: set<T>)
    requires Lists(enc, ks, s) && ks != []
    ensures Lists(enc, ks[1..], s - {ks[0]})
  {
    forall k ensures k in ks[1..] <==> k in s - {ks[0]} {
      LessIrreflexive(enc(ks[0]));
      if k in s && k != ks[0] {
        var i :| 0 <= i < |ks| && ks[i] == k;
        assert ks[1..][i - 1] == k;
      }
    }
  }

  lemma FirstIsLeast<T(!new)>(enc: T -> seq<nat>, ks: seq<T>, s: set<T>, k: T)
    requires Lists(enc, ks, s) && k in s
    ensures ks != [] && (k == ks[0] || Less(enc(ks[0]), enc(k)))
  {
    var i :| 0 <= i < |ks| && ks[i] == k;
  }

  lemma EmptyListing<T(!new)>(enc: T -> seq<nat>, ks: seq<T>, s: set<T>)
    requires Lists(enc, ks, s)
    ensures ks == [] <==> s == {}
  {
    if ks != [] {
      assert ks[0] in s;
    }
  }

  /** There is only one listing. */
  lemma {:induction false} ListingUnique<T(!new)>(enc: T -> seq<nat>, a: seq<T>, b: seq<T>, s: set<T>)
    requires Lists(enc, a, s) && Lists(enc, b, s)
    ensures a == b
    decreases |a|
  {
    if a == [] {
      EmptyListing(enc, a, s);
      EmptyListing(enc, b, s);
    } else {
      assert a[0] in b;
      FirstIsLeast(enc, a, s, b[0]);
      FirstIsLeast(enc, b, s, a[0]);
      if a[0] != b[0] {
        LessTransitive(enc(a[0]), enc(b[0]), enc(a[0]));
        LessIrreflexive(enc(a[0]));
      }
      ListsTail(enc, a, s);
      ListsTail(enc, b, s);
      ListingUnique(enc, a[1..], b[1..], s - {a[0]});
      assert a == [a[0]] + a[1..] && b == [b[0]] + b[1..];
    }
  }

  function Filter<T(!new)>(ks: seq<T>, keep: T -> bool): (r: seq<T>)
    ensures forall k :: k in r <==> k in ks && keep(k)
  {
    if ks == [] then []
    else if keep(ks[0]) then [ks[0]] + Filter(ks[1..], keep)
    else Filter(ks[1..], keep)
  }

  lemma {:induction false} FilterAppend<T(!new)>(a: seq<T>, x: T, keep: T -> bool)
    ensures Filter(a + [x], keep) == Filter(a, keep) + if keep(x) then [x] else []
  {
    if a == [] {
      assert a + [x] == [x];
    } else {
      assert (a + [x])[1..] == a[1..] + [x];
      FilterAppend(a[1..], x, keep);
    }
  }

  /** Leaving elements out of a listing lists what is left. */
  lemma {:induction false} FilterLists<T(!new)>(enc: T -> seq<nat>, ks: seq<T>, s: set<T>, keep: T -> bool)
    requires Lists(enc, ks, s)
    ensures Lists(enc, Filter(ks, keep), set k | k in s && keep(k))
    decreases |ks|
  {
    var kept := set k | k in s && keep(k);
    if ks != [] {
      ListsTail(enc, ks, s);
      FilterLists(enc, ks[1..], s - {ks[0]}, keep);
      var rest := Filter(ks[1..], keep);
      forall i | 0 <= i < |rest| ensures Less(enc(ks[0]), enc(rest[i])) {
        assert rest[i] in ks[1..];
      }
      assert SortedBy(enc, Filter(ks, keep));
    }
  }

  function Insert<T>(enc: T -> seq<nat>, ks: seq<T>, x: T): seq<T> {
    if ks == [] || Less(enc(x), enc(ks[0])) then [x] + ks else [ks[0]] + Insert(enc, ks[1..], x)
  }

  lemma {:induction false} InsertLists<T(!new)>(enc: T -> seq<nat>, ks: seq<T>, s: set<T>, x: T)
    requires Injective(enc) && Lists(enc, ks, s) && x !in s
    ensures Lists(enc, Insert(enc, ks, x), s + {x})
    decreases |ks|
  {
    if ks == [] {
    } else if Less(enc(x), enc(ks[0])) {
      forall i | 0 <= i < |ks| ensures Less(enc(x), enc(ks[i])) {
        if i > 0 {
          LessTransitive(enc(x), enc(ks[0]), enc(ks[i]));
        }
      }
    } else {
      assert ks[0] in s;
      LessTotal(enc(x), enc(ks[0]));
      ListsTail(enc, ks, s);
      InsertLists(enc, ks[1..], s - {ks[0]}, x);
      ConsLists(enc, ks[0], Insert(enc, ks[1..], x), s - {ks[0]} + {x});
      assert s - {ks[0]} + {x} + {ks[0]} == s + {x};
    }
  }

  lemma ConsLists<T(!new)>(enc: T -> seq<nat>, x: T, ks: seq<T>, s: set<T>)
    requires Lists(enc, ks, s) && forall k :: k in s ==> Less(enc(x), enc(k))
    ensures Lists(enc, [x] + ks, s + {x})
  {
    forall i | 0 <= i < |ks| ensures Less(enc(x), enc(ks[i])) {
      assert ks[i] in s;
    }
  }

  lemma {:induction false} ListingExists<T(!new)>(enc: T -> seq<nat>, s: set<T>) returns (ks: seq<T>)
    requires Injective(enc)
    ensures Lists(enc, ks, s)
    decreases s
  {
    if s == {} {
      ks := [];
    } else {
      var x :| x in s;
      var rest := ListingExists(enc, s - {x});
      InsertLists(enc, rest, s - {x}, x);
      ks := Insert(enc, rest, x);
      assert s - {x} + {x} == s;
    }
  }

  /** The listing of s; ListingUnique makes it the only one. */
  ghost function Listing<T(!new)>(enc: T -> seq<nat>, s: set<T>): (ks: seq<T>)
    requires Injective(enc)
    ensures Lists(enc, ks, s)
  {
    assert exists ks :: Lists(enc, ks, s) by {
      var ks := ListingExists(enc, s);
    }
    var ks :| Lists(enc, ks, s);
    ks
  }

  method Sort<T(!new, ==)>(enc: T -> seq<nat>, s: set<T>) returns (ks: seq<T>)
    requires Injective(enc)
    ensures ks == Listing(enc, s)
  {
    ks := [];
    var rest := s;
    while rest != {}
      invariant rest <= s && Lists(enc, ks, s - rest)
      decreases rest
    {
      var x :| x in rest;
      InsertLists(enc, ks, s - rest, x);
      ks := Insert(enc, ks, x);
      assert s - rest + {x} == s - (rest - {x});
      rest := rest - {x};
    }
    assert s - rest == s;
    ListingUnique(enc, ks, Listing(enc, s), s);
  }

  // ----- Elements of sequences

  function Range<T>(xs: seq<T>): set<T> {
    set x | x in xs
  }

  lemma RangeNext<T>(xs: seq<T>, i: nat)
    requires i < |xs|
    ensures Range(xs[..i + 1]) == Range(xs[..i]) + {xs[i]} && xs[i] in Range(xs)
  {
    assert xs[..i + 1] == xs[..i] + [xs[i]];
  }

  lemma RangeWhole<T>(xs: seq<T>)
    ensures Range(xs[..|xs|]) == Range(xs)
  {
    assert xs[..|xs|] == xs;
  }

  // The elements of a set, in any order
  method Elements<T(==)>(s: set<T>) returns (xs: seq<T>)
    ensures forall x :: x in xs <==> x in s
    ensures forall i, j :: 0 <= i < j < |xs| ==> xs[i] != xs[j]
  {
    xs := [];
    var todo := s;
    while todo != {}
      invariant todo <= s && forall x :: x in s && x !in todo <==> x in xs
      invariant forall i, j :: 0 <= i < j < |xs| ==> xs[i] != xs[j]
      decreases |todo|
    {
      var x :| x in todo;
      xs, todo := xs + [x], todo - {x};
    }
  }
}
