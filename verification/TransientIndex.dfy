/** An index from keys to sorted slices, as the transient store keeps from heights to transactions and back. */
module TransientIndex {
  import opened Digits
  import opened Sorting

  // ----- Slices

  /** The binary search of sort.Search for the first element that is not less than v. */
  method Search<T(!new)>(enc: T -> seq<nat>, m: seq<T>, v: T) returns (i: nat)
    requires SortedBy(enc, m)
    ensures i <= |m|
    ensures forall j :: 0 <= j < i ==> Less(enc(m[j]), enc(v))
    ensures forall j :: i <= j < |m| ==> !Less(enc(m[j]), enc(v))
  {
    i := 0;
    var n := |m|;
    while i < n
      invariant 0 <= i <= n <= |m|
      invariant forall j :: 0 <= j < i ==> Less(enc(m[j]), enc(v))
      invariant forall j :: n <= j < |m| ==> !Less(enc(m[j]), enc(v))
    {
      var h := i + (n - i) / 2;
      if Less(enc(m[h]), enc(v)) {
        forall j | 0 <= j < h ensures Less(enc(m[j]), enc(v)) {
          LessTransitive(enc(m[j]), enc(m[h]), enc(v));
        }
        i := h + 1;
      } else {
        forall j | h < j < |m| ensures !Less(enc(m[j]), enc(v)) {
          if Less(enc(m[j]), enc(v)) {
            LessTransitive(enc(m[h]), enc(m[j]), enc(v));
          }
        }
        n := h;
      }
    }
  }

  method Find<T(!new, ==)>(enc: T -> seq<nat>, m: seq<T>, v: T) returns (found: bool, i: nat)
    requires SortedBy(enc, m)
    ensures found <==> v in m
    ensures found ==> i < |m| && m[i] == v
  {
    i := Search(enc, m, v);
    found := i < |m| && m[i] == v;
    if v in m {
      var p :| 0 <= p < |m| && m[p] == v;
      LessIrreflexive(enc(v));
      assert p >= i;
    }
  }

  lemma RemoveLists<T(!new)>(enc: T -> seq<nat>, m: seq<T>, s: set<T>, i: nat)
    requires Lists(enc, m, s) && i < |m|
    ensures Lists(enc, m[..i] + m[i + 1..], s - {m[i]})
  {
    var r := m[..i] + m[i + 1..];
    forall x ensures x in r <==> x in s - {m[i]} {
      LessIrreflexive(enc(m[i]));
      if x in s && x != m[i] {
        var p :| 0 <= p < |m| && m[p] == x;
        assert r[if p < i then p else p - 1] == x;
      }
    }
  }

  ghost predicate Ascending<T(!new)>(enc: T -> seq<nat>, m: seq<T>) {
    forall i, j :: 0 <= i < j < |m| ==> !Less(enc(m[j]), enc(m[i]))
  }

  lemma {:induction false} InsertAscending<T(!new)>(enc: T -> seq<nat>, m: seq<T>, v: T)
    requires Ascending(enc, m)
    ensures Ascending(enc, Insert(enc, m, v)) && multiset(Insert(enc, m, v)) == multiset(m) + multiset{v}
    decreases |m|
  {
    var r := Insert(enc, m, v);
    if m == [] {
    } else if Less(enc(v), enc(m[0])) {
      forall j | 0 <= j < |m| ensures !Less(enc(m[j]), enc(v)) {
        if Less(enc(m[j]), enc(v)) {
          LessTransitive(enc(m[j]), enc(v), enc(m[0]));
          LessIrreflexive(enc(m[0]));
        }
      }
    } else {
      var rest := Insert(enc, m[1..], v);
      InsertAscending(enc, m[1..], v);
      assert m == [m[0]] + m[1..];
      forall j | 0 <= j < |rest| ensures !Less(enc(rest[j]), enc(m[0])) {
        assert rest[j] in multiset(rest);
        assert rest[j] == v || rest[j] in m[1..];
      }
    }
  }

  // The slice with v appended and sorted again; the callers add a value only when it is not there
  method Add<T(!new, ==)>(enc: T -> seq<nat>, m: seq<T>, v: T, ghost s: set<T>) returns (r: seq<T>)
    requires Injective(enc) && Lists(enc, m, s)
    ensures Ascending(enc, r) && multiset(r) == multiset(m) + multiset{v}
    ensures v !in m ==> Lists(enc, r, s + {v})
  {
    forall i, j | 0 <= i < j < |m| ensures !Less(enc(m[j]), enc(m[i])) {
      NotBoth(enc(m[i]), enc(m[j]));
    }
    InsertAscending(enc, m, v);
    if v !in m {
      InsertLists(enc, m, s, v);
    }
    r := Insert(enc, m, v);
  }

  // Every element of vs is searched for and cut out until it is gone
  method RemoveAll<T(!new, ==)>(enc: T -> seq<nat>, m: seq<T>, vs: seq<T>, ghost s: set<T>) returns (r: seq<T>)
    requires Lists(enc, m, s)
    ensures Lists(enc, r, s - Range(vs))
  {
    r := m;
    assert s - Range(vs[..0]) == s;
    for i := 0 to |vs|
      invariant Lists(enc, r, s - Range(vs[..i]))
    {
      RangeNext(vs, i);
      ghost var before := s - Range(vs[..i]);
      assert s - Range(vs[..i + 1]) == before - {vs[i]};
      var found: bool, at: nat := Find(enc, r, vs[i]);
      while found
        invariant Lists(enc, r, if found then before else before - {vs[i]})
        invariant found ==> at < |r| && r[at] == vs[i]
        decreases found
      {
        RemoveLists(enc, r, before, at);
        r := r[..at] + r[at + 1..];
        found, at := Find(enc, r, vs[i]);
      }
      assert before - {vs[i]} == if vs[i] in before then before - {vs[i]} else before;
    }
    RangeWhole(vs);
  }

  // The elements in the order of their first occurrences
  function FirstOccurrences<T(==)>(s: seq<T>): seq<T> {
    if s == [] then []
    else
      var front := FirstOccurrences(s[..|s| - 1]);
      if s[|s| - 1] in s[..|s| - 1] then front else front + [s[|s| - 1]]
  }

  lemma {:induction false} FirstOccurrencesUnique<T>(s: seq<T>)
    ensures Range(FirstOccurrences(s)) == Range(s)
    ensures forall i, j :: 0 <= i < j < |FirstOccurrences(s)| ==> FirstOccurrences(s)[i] != FirstOccurrences(s)[j]
  {
    if s != [] {
      var last := |s| - 1;
      FirstOccurrencesUnique(s[..last]);
      assert s == s[..last] + [s[last]];
      var front := FirstOccurrences(s[..last]);
      assert Range(s) == Range(s[..last]) + {s[last]};
      assert Range(front + [s[last]]) == Range(front) + {s[last]};
      forall i | 0 <= i < |front| ensures front[i] in s[..last] {
        assert front[i] in Range(front);
      }
    }
  }

  /** Duplicates are squeezed out in place; the first j elements are what is left. */
  method SliceUnique<T(==)>(a: array<T>) returns (j: nat)
    modifies a
    ensures j <= a.Length && a[..j] == FirstOccurrences(old(a[..]))
  {
    var seen: set<T> := {};
    j := 0;
    for i := 0 to a.Length
      invariant j <= i
      invariant forall k :: i <= k < a.Length ==> a[k] == old(a[k])
      invariant seen == Range(old(a[..])[..i])
      invariant a[..j] == FirstOccurrences(old(a[..])[..i])
    {
      ghost var was := old(a[..]);
      assert was[..i + 1][..i] == was[..i];
      RangeNext(was, i);
      var v := a[i];
      if v !in seen {
        seen := seen + {v};
        a[j] := v;
        j := j + 1;
        assert a[..j] == a[..j - 1] + [v];
      }
    }
    assert old(a[..])[..a.Length] == old(a[..]);
  }

  // ----- Indexes

  ghost function Row<K, V>(rel: set<(K, V)>, k: K): set<V> {
    set p | p in rel && p.0 == k :: p.1
  }

  // Without the pairs of a key in ks and a value in vs
  ghost function Minus<K, V>(rel: set<(K, V)>, ks: set<K>, vs: set<V>): set<(K, V)> {
    set p | p in rel && !(p.0 in ks && p.1 in vs)
  }

  // Every slice lists its row, and every row has a slice; a looked-up key may have an empty one
  ghost predicate Holds<K(!new), V(!new)>(enc: V -> seq<nat>, idx: map<K, seq<V>>, rel: set<(K, V)>) {
    && (forall k :: k in idx ==> Lists(enc, idx[k], Row(rel, k)))
    && (forall p :: p in rel ==> p.0 in idx)
  }

  predicate EmptyOnly<K, V(==)>(idx: map<K, seq<V>>, ks: seq<K>) {
    forall k :: k in idx && idx[k] == [] ==> k in ks
  }

  ghost predicate Indexes<K(!new), V(!new)>(enc: V -> seq<nat>, idx: map<K, seq<V>>, rel: set<(K, V)>) {
    Holds(enc, idx, rel) && EmptyOnly(idx, [])
  }

  // A cache lookup with its loader
  function Get<K, V>(idx: map<K, seq<V>>, k: K): seq<V> {
    if k in idx then idx[k] else []
  }

  lemma GetLists<K(!new), V(!new)>(enc: V -> seq<nat>, idx: map<K, seq<V>>, rel: set<(K, V)>, k: K)
    requires Holds(enc, idx, rel)
    ensures Lists(enc, Get(idx, k), Row(rel, k))
  {
  }

  lemma SetHolds<K(!new), V(!new)>(enc: V -> seq<nat>, idx: map<K, seq<V>>, rel: set<(K, V)>, k: K, m: seq<V>,
                   rel': set<(K, V)>)
    requires Holds(enc, idx, rel) && Lists(enc, m, Row(rel', k))
    requires forall x :: x != k ==> Row(rel', x) == Row(rel, x)
    requires forall p :: p in rel' && p.0 != k ==> p in rel
    ensures Holds(enc, idx[k := m], rel')
    ensures m == [] ==> Holds(enc, idx - {k}, rel')
  {
    assert forall p :: p in rel' ==> p.1 in Row(rel', p.0);
  }

  method AddTo<K(!new, ==), V(!new, ==)>(enc: V -> seq<nat>, idx: map<K, seq<V>>, k: K, v: V, ghost rel: set<(K, V)>)
    returns (idx': map<K, seq<V>>)
    requires Injective(enc) && Indexes(enc, idx, rel)
    ensures Indexes(enc, idx', rel + {(k, v)})
  {
    var m := Get(idx, k);
    GetLists(enc, idx, rel, k);
    ghost var rel' := rel + {(k, v)};
    assert Row(rel', k) == Row(rel, k) + {v};
    assert forall x :: x != k ==> Row(rel', x) == Row(rel, x);
    var found, _ := Find(enc, m, v);
    if !found {
      m := Add(enc, m, v, Row(rel, k));
    }
    SetHolds(enc, idx, rel, k, m, rel');
    idx' := idx[k := m];
    assert v in m;
  }

  // The values of vs leave the slice of k, and an empty slice leaves the cache
  method RemoveRow<K(!new, ==), V(!new, ==)>(enc: V -> seq<nat>, idx: map<K, seq<V>>, k: K, vs: seq<V>,
                     ghost rel: set<(K, V)>)
    returns (idx': map<K, seq<V>>)
    requires Holds(enc, idx, rel)
    ensures Holds(enc, idx', Minus(rel, {k}, Range(vs)))
    ensures forall x :: x in idx' && idx'[x] == [] ==> x != k && x in idx && idx[x] == []
  {
    GetLists(enc, idx, rel, k);
    var m := RemoveAll(enc, Get(idx, k), vs, Row(rel, k));
    ghost var rel' := Minus(rel, {k}, Range(vs));
    assert Row(rel', k) == Row(rel, k) - Range(vs);
    assert forall x :: x != k ==> Row(rel', x) == Row(rel, x);
    SetHolds(enc, idx, rel, k, m, rel');
    idx' := if |m| == 0 then idx - {k} else idx[k := m];
  }

  method RemoveRows<K(!new, ==), V(!new, ==)>(enc: V -> seq<nat>, idx: map<K, seq<V>>, ks: seq<K>, vs: seq<V>,
                      ghost rel: set<(K, V)>)
    returns (idx': map<K, seq<V>>)
    requires Holds(enc, idx, rel) && EmptyOnly(idx, ks)
    ensures Indexes(enc, idx', Minus(rel, Range(ks), Range(vs)))
  {
    idx' := idx;
    ghost var left := rel;
    assert Minus(rel, Range(ks[..0]), Range(vs)) == rel;
    for i := 0 to |ks|
      invariant left == Minus(rel, Range(ks[..i]), Range(vs))
      invariant Holds(enc, idx', left)
      invariant EmptyOnly(idx', ks[i..])
    {
      RangeNext(ks, i);
      MinusNext(rel, Range(ks[..i]), ks[i], Range(vs));
      assert ks[i..] == [ks[i]] + ks[i + 1..];
      idx' := RemoveRow(enc, idx', ks[i], vs, left);
      left := Minus(left, {ks[i]}, Range(vs));
    }
    RangeWhole(ks);
  }

  lemma MinusNext<K, V>(rel: set<(K, V)>, ks: set<K>, k: K, vs: set<V>)
    ensures Minus(rel, ks + {k}, vs) == Minus(Minus(rel, ks, vs), {k}, vs)
  {
  }

  // The values of the rows of ks
  ghost function Rows<K, V>(rel: set<(K, V)>, ks: set<K>): set<V> {
    set p | p in rel && p.0 in ks :: p.1
  }

  // Looks up every key and collects the slices; lookups leave empty slices behind
  method Collect<K(!new, ==), V(!new, ==)>(enc: V -> seq<nat>, idx: map<K, seq<V>>, ks: seq<K>, ghost rel: set<(K, V)>)
    returns (vs: seq<V>, idx': map<K, seq<V>>)
    requires Indexes(enc, idx, rel)
    ensures Range(vs) == Rows(rel, Range(ks))
    ensures Holds(enc, idx', rel) && EmptyOnly(idx', ks) && forall k :: k in ks ==> k in idx'
  {
    vs, idx' := [], idx;
    for i := 0 to |ks|
      invariant Range(vs) == Rows(rel, Range(ks[..i]))
      invariant Holds(enc, idx', rel) && EmptyOnly(idx', ks)
      invariant forall j :: 0 <= j < i ==> ks[j] in idx'
    {
      RangeNext(ks, i);
      GetLists(enc, idx', rel, ks[i]);
      var m := Get(idx', ks[i]);
      SetHolds(enc, idx', rel, ks[i], m, rel);
      idx' := idx'[ks[i] := m];
      assert Rows(rel, Range(ks[..i + 1])) == Rows(rel, Range(ks[..i])) + Row(rel, ks[i]);
      assert Range(vs + m) == Range(vs) + Row(rel, ks[i]);
      vs := vs + m;
    }
    RangeWhole(ks);
  }
}
