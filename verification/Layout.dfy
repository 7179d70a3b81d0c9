/** Lists of events laid out in the order of the ranks of the places they stand at. */
module Layout {
  import opened Digits
  import opened BlockVisitor

  type Ranks<!P> = P -> seq<nat>

  type Holds<!P> = (P, Event) -> bool

  // Below the prefix, in one of the first n branches
  predicate InBranch(prefix: seq<nat>, n: nat, r: seq<nat>) {
    prefix < r && r[|prefix|] < n
  }

  predicate Ascending<P>(rank: Ranks<P>, ps: seq<P>) {
    forall i, j :: 0 <= i < j < |ps| ==> Less(rank(ps[i]), rank(ps[j]))
  }

  ghost predicate Listed<P>(ps: seq<P>, es: seq<Event>, p: P, e: Event) {
    exists i :: 0 <= i < |ps| && i < |es| && ps[i] == p && es[i] == e
  }

  ghost predicate Sound<P>(rank: Ranks<P>, holds: Holds<P>, prefix: seq<nat>, n: nat, ps: seq<P>, es: seq<Event>) {
    |ps| == |es| && forall i :: 0 <= i < |ps| ==> holds(ps[i], es[i]) && InBranch(prefix, n, rank(ps[i]))
  }

  // es are the events of the first n branches below the prefix, ps their places
  ghost predicate Branches<P(!new)>(rank: Ranks<P>, holds: Holds<P>, prefix: seq<nat>, n: nat, ps: seq<P>,
                                    es: seq<Event>) {
    && Sound(rank, holds, prefix, n, ps, es) && Ascending(rank, ps)
    && forall p, e :: holds(p, e) && InBranch(prefix, n, rank(p)) ==> Listed(ps, es, p, e)
  }

  // es are all events below the prefix
  ghost predicate Lays<P(!new)>(rank: Ranks<P>, holds: Holds<P>, prefix: seq<nat>, ps: seq<P>, es: seq<Event>) {
    && |ps| == |es| && Ascending(rank, ps)
    && (forall i :: 0 <= i < |ps| ==> holds(ps[i], es[i]) && prefix <= rank(ps[i]))
    && forall p, e :: holds(p, e) && prefix <= rank(p) ==> Listed(ps, es, p, e)
  }

  ghost predicate Laid<P(!new)>(rank: Ranks<P>, holds: Holds<P>, prefix: seq<nat>, es: seq<Event>) {
    exists ps :: Lays(rank, holds, prefix, ps, es)
  }

  ghost predicate LaidUpTo<P(!new)>(rank: Ranks<P>, holds: Holds<P>, prefix: seq<nat>, n: nat, es: seq<Event>) {
    exists ps :: Branches(rank, holds, prefix, n, ps, es)
  }

  lemma NothingLaid<P(!new)>(rank: Ranks<P>, holds: Holds<P>, prefix: seq<nat>)
    requires forall p, e :: holds(p, e) ==> !(prefix <= rank(p))
    ensures Laid(rank, holds, prefix, [])
  {
    assert Lays(rank, holds, prefix, [], []);
  }

  lemma OneLaid<P(!new)>(rank: Ranks<P>, holds: Holds<P>, prefix: seq<nat>, p: P, e: Event)
    requires holds(p, e) && prefix <= rank(p)
    requires forall p', e' :: holds(p', e') && prefix <= rank(p') ==> p' == p && e' == e
    ensures Laid(rank, holds, prefix, [e])
  {
    var ps, es := [p], [e];
    assert ps[0] == p && es[0] == e;
    assert Lays(rank, holds, prefix, ps, es);
  }

  lemma NoBranch<P(!new)>(rank: Ranks<P>, holds: Holds<P>, prefix: seq<nat>)
    ensures LaidUpTo(rank, holds, prefix, 0, [])
  {
    assert Branches(rank, holds, prefix, 0, [], []);
  }

  lemma LaterBranch(prefix: seq<nat>, x: seq<nat>, y: seq<nat>)
    requires prefix < x && prefix < y && x[|prefix|] < y[|prefix|]
    ensures Less(x, y)
  {
    LessCommonPrefix(prefix, x[|prefix|..], y[|prefix|..]);
    assert x == prefix + x[|prefix|..] && y == prefix + y[|prefix|..];
  }

  lemma BranchIff(prefix: seq<nat>, n: nat, r: seq<nat>)
    ensures prefix + [n] <= r <==> prefix < r && r[|prefix|] == n
  {
    assert (prefix + [n])[|prefix|] == n && prefix == (prefix + [n])[..|prefix|];
  }

  lemma ListedOn<P>(ps: seq<P>, qs: seq<P>, es: seq<Event>, more: seq<Event>, p: P, e: Event)
    requires |ps| == |es| && (Listed(ps, es, p, e) || Listed(qs, more, p, e))
    ensures Listed(ps + qs, es + more, p, e)
  {
    if Listed(ps, es, p, e) {
      var i :| 0 <= i < |ps| && i < |es| && ps[i] == p && es[i] == e;
      assert (ps + qs)[i] == p && (es + more)[i] == e;
    } else {
      var i :| 0 <= i < |qs| && i < |more| && qs[i] == p && more[i] == e;
      assert (ps + qs)[|ps| + i] == p && (es + more)[|es| + i] == e;
    }
  }

  lemma AscendOn<P>(rank: Ranks<P>, prefix: seq<nat>, n: nat, ps: seq<P>, qs: seq<P>)
    requires Ascending(rank, ps) && Ascending(rank, qs)
    requires forall i :: 0 <= i < |ps| ==> InBranch(prefix, n, rank(ps[i]))
    requires forall i :: 0 <= i < |qs| ==> prefix < rank(qs[i]) && rank(qs[i])[|prefix|] == n
    ensures Ascending(rank, ps + qs)
  {
    forall i, j | 0 <= i < j < |ps + qs| ensures Less(rank((ps + qs)[i]), rank((ps + qs)[j])) {
      if i < |ps| <= j {
        LaterBranch(prefix, rank(ps[i]), rank(qs[j - |ps|]));
      }
    }
  }

  lemma SoundOn<P(!new)>(rank: Ranks<P>, holds: Holds<P>, prefix: seq<nat>, n: nat, ps: seq<P>, es: seq<Event>,
                         qs: seq<P>, more: seq<Event>)
    requires Branches(rank, holds, prefix, n, ps, es) && Lays(rank, holds, prefix + [n], qs, more)
    ensures Sound(rank, holds, prefix, n + 1, ps + qs, es + more) && Ascending(rank, ps + qs)
  {
    forall i | 0 <= i < |qs| ensures prefix < rank(qs[i]) && rank(qs[i])[|prefix|] == n {
      BranchIff(prefix, n, rank(qs[i]));
    }
    AscendOn(rank, prefix, n, ps, qs);
  }

  lemma NextBranch<P(!new)>(rank: Ranks<P>, holds: Holds<P>, prefix: seq<nat>, n: nat, es: seq<Event>, more: seq<Event>)
    requires LaidUpTo(rank, holds, prefix, n, es) && Laid(rank, holds, prefix + [n], more)
    ensures LaidUpTo(rank, holds, prefix, n + 1, es + more)
  {
    var ps :| Branches(rank, holds, prefix, n, ps, es);
    var qs :| Lays(rank, holds, prefix + [n], qs, more);
    SoundOn(rank, holds, prefix, n, ps, es, qs, more);
    forall p, e | holds(p, e) && InBranch(prefix, n + 1, rank(p)) ensures Listed(ps + qs, es + more, p, e) {
      BranchIff(prefix, n, rank(p));
      ListedOn(ps, qs, es, more, p, e);
    }
    assert Branches(rank, holds, prefix, n + 1, ps + qs, es + more);
  }

  lemma AllBranches<P(!new)>(rank: Ranks<P>, holds: Holds<P>, prefix: seq<nat>, n: nat, es: seq<Event>)
    requires LaidUpTo(rank, holds, prefix, n, es)
    requires forall p, e :: holds(p, e) && prefix <= rank(p) ==> InBranch(prefix, n, rank(p))
    ensures Laid(rank, holds, prefix, es)
  {
    var ps :| Branches(rank, holds, prefix, n, ps, es);
    assert Lays(rank, holds, prefix, ps, es);
  }

  lemma {:induction false} EachLaid<P(!new), T>(rank: Ranks<P>, holds: Holds<P>, prefix: seq<nat>, xs: seq<T>,
                                                f: T -> seq<Event>)
    requires forall i :: 0 <= i < |xs| ==> Laid(rank, holds, prefix + [i], f(xs[i]))
    ensures LaidUpTo(rank, holds, prefix, |xs|, FlatMap(xs, f))
  {
    if xs == [] {
      NoBranch(rank, holds, prefix);
    } else {
      var last := |xs| - 1;
      forall i | 0 <= i < last ensures Laid(rank, holds, prefix + [i], f(xs[..last][i])) {
        assert xs[..last][i] == xs[i];
      }
      EachLaid(rank, holds, prefix, xs[..last], f);
      NextBranch(rank, holds, prefix, last, FlatMap(xs[..last], f), f(xs[last]));
    }
  }

  lemma TwoLaid<P(!new)>(rank: Ranks<P>, holds: Holds<P>, prefix: seq<nat>, x: seq<Event>, y: seq<Event>)
    requires Laid(rank, holds, prefix + [0], x) && Laid(rank, holds, prefix + [1], y)
    ensures LaidUpTo(rank, holds, prefix, 2, x + y)
  {
    NoBranch(rank, holds, prefix);
    assert [] + x == x;
    NextBranch(rank, holds, prefix, 0, [], x);
    NextBranch(rank, holds, prefix, 1, x, y);
  }

  // ----- The elements of a list, one event each

  ghost predicate IsLeaf<P, T>(rank: Ranks<P>, holds: Holds<P>, prefix: seq<nat>, xs: seq<T>, f: T -> seq<Event>,
                               at: nat -> P, i: nat)
    requires i < |xs|
  {
    |f(xs[i])| == 1 && rank(at(i)) == prefix + [i] && holds(at(i), f(xs[i])[0])
  }

  ghost predicate FromLeaf<P, T>(xs: seq<T>, f: T -> seq<Event>, at: nat -> P, p: P, e: Event) {
    exists i: nat :: i < |xs| && p == at(i) && f(xs[i]) == [e]
  }

  ghost predicate AllLeaves<P(!new), T>(rank: Ranks<P>, holds: Holds<P>, prefix: seq<nat>, xs: seq<T>,
                                        f: T -> seq<Event>, at: nat -> P) {
    && (forall i :: 0 <= i < |xs| ==> IsLeaf(rank, holds, prefix, xs, f, at, i))
    && forall p, e :: holds(p, e) && prefix <= rank(p) ==> FromLeaf(xs, f, at, p, e)
  }

  lemma LeafLaid<P(!new), T>(rank: Ranks<P>, holds: Holds<P>, prefix: seq<nat>, xs: seq<T>, f: T -> seq<Event>,
                             at: nat -> P, i: nat)
    requires AllLeaves(rank, holds, prefix, xs, f, at) && i < |xs|
    ensures Laid(rank, holds, prefix + [i], f(xs[i]))
  {
    assert IsLeaf(rank, holds, prefix, xs, f, at, i);
    var e := f(xs[i])[0];
    assert f(xs[i]) == [e];
    forall p', e' | holds(p', e') && prefix + [i] <= rank(p') ensures p' == at(i) && e' == e {
      BranchIff(prefix, i, rank(p'));
      var j: nat :| j < |xs| && p' == at(j) && f(xs[j]) == [e'];
      assert IsLeaf(rank, holds, prefix, xs, f, at, j);
    }
    OneLaid(rank, holds, prefix + [i], at(i), e);
  }

  lemma LeafInBranch<P(!new), T>(rank: Ranks<P>, holds: Holds<P>, prefix: seq<nat>, xs: seq<T>, f: T -> seq<Event>,
                                 at: nat -> P, p: P, e: Event)
    requires AllLeaves(rank, holds, prefix, xs, f, at) && holds(p, e) && prefix <= rank(p)
    ensures InBranch(prefix, |xs|, rank(p))
  {
    var i: nat :| i < |xs| && p == at(i) && f(xs[i]) == [e];
    assert IsLeaf(rank, holds, prefix, xs, f, at, i);
  }

  lemma LeavesLaid<P(!new), T>(rank: Ranks<P>, holds: Holds<P>, prefix: seq<nat>, xs: seq<T>, f: T -> seq<Event>,
                               at: nat -> P)
    requires AllLeaves(rank, holds, prefix, xs, f, at)
    ensures Laid(rank, holds, prefix, FlatMap(xs, f))
  {
    forall i | 0 <= i < |xs| ensures Laid(rank, holds, prefix + [i], f(xs[i])) {
      LeafLaid(rank, holds, prefix, xs, f, at, i);
    }
    EachLaid(rank, holds, prefix, xs, f);
    forall p, e | holds(p, e) && prefix <= rank(p) ensures InBranch(prefix, |xs|, rank(p)) {
      LeafInBranch(rank, holds, prefix, xs, f, at, p, e);
    }
    AllBranches(rank, holds, prefix, |xs|, FlatMap(xs, f));
  }
}
