/** The resource manager: creators are run round by round as their dependencies become available. */
module ResourceManager {
  import opened PvtTypes
  import opened Sorting
  import opened InjectInvoker

  // id tells registrations apart
  datatype Creator = Creator(id: nat, args: seq<Type>, numReturns: nat, impls: set<nat>)

  function ResourceOf(c: Creator): Provider {
    Provider(c.id, c.impls)
  }

  function ResourcesOf(cs: seq<Creator>): (r: seq<Provider>)
    ensures |r| == |cs|
  {
    if cs == [] then [] else ResourcesOf(cs[..|cs| - 1]) + [ResourceOf(cs[|cs| - 1])]
  }

  function Impls(cs: set<Creator>): set<nat> {
    set c, id | c in cs && id in c.impls :: id
  }

  // No argument of an unsupported kind and exactly one return value
  predicate Clean(cs: seq<Creator>) {
    forall c :: c in cs ==> SupportedArgs(c.args) && c.numReturns == 1
  }

  predicate Distinct<T(==)>(xs: seq<T>) {
    forall i, j :: 0 <= i < j < |xs| ==> xs[i] != xs[j]
  }

  // a and b hold the elements of all between them, each once
  ghost predicate Splits<T>(all: seq<T>, a: seq<T>, b: seq<T>) {
    Distinct(a) && Distinct(b) && Range(a) !! Range(b) && Range(a) + Range(b) == Range(all) && |a| + |b| == |all|
  }

  lemma SplitsNext<T>(xs: seq<T>, i: nat, a: seq<T>, b: seq<T>)
    requires i < |xs| && Distinct(xs) && Splits(xs[..i], a, b)
    ensures Splits(xs[..i + 1], a + [xs[i]], b) && Splits(xs[..i + 1], a, b + [xs[i]])
  {
    RangeNext(xs, i);
    assert xs[i] !in xs[..i];
    assert xs[i] !in Range(a) + Range(b);
    assert Range(a + [xs[i]]) == Range(a) + {xs[i]} && Range(b + [xs[i]]) == Range(b) + {xs[i]};
  }

  lemma SplitsAgain<T>(all: seq<T>, a: seq<T>, b: seq<T>, c: seq<T>, d: seq<T>)
    requires Splits(all, a, b) && Splits(b, c, d)
    ensures Splits(all, a + c, d)
  {
    assert Range(a + c) == Range(a) + Range(c);
    forall i, j | 0 <= i < j < |a + c| ensures (a + c)[i] != (a + c)[j] {
      if i < |a| <= j {
        assert (a + c)[i] in Range(a) && (a + c)[j] in Range(c);
      }
    }
  }

  // ----- The least fixed point

  predicate Satisfied(base: set<nat>, made: set<Creator>, c: Creator) {
    ArgNeeds(c.args) <= base + Impls(made)
  }

  // Holds every creator whose dependencies it provides
  ghost predicate Closed(base: set<nat>, all: set<Creator>, s: set<Creator>) {
    forall c :: c in all && Satisfied(base, s, c) ==> c in s
  }

  ghost predicate LeastClosed(base: set<nat>, all: set<Creator>, s: set<Creator>) {
    s <= all && Closed(base, all, s) && InEveryClosed(base, all, s)
  }

  ghost predicate InEveryClosed(base: set<nat>, all: set<Creator>, s: set<Creator>) {
    forall s' :: Closed(base, all, s') ==> s <= s'
  }

  /** There is one least closed set, so neither the order of registration nor the rounds can matter. */
  lemma LeastClosedUnique(base: set<nat>, all: set<Creator>, s: set<Creator>, s': set<Creator>)
    requires LeastClosed(base, all, s) && LeastClosed(base, all, s')
    ensures s == s'
  {
  }

  // Each was satisfied by those made before it
  ghost predicate Justified(base: set<nat>, made: seq<Creator>) {
    forall i :: 0 <= i < |made| ==> Satisfied(base, Range(made[..i]), made[i])
  }

  lemma {:induction false} JustifiedInEveryClosed(base: set<nat>, all: set<Creator>, made: seq<Creator>,
                                                  s: set<Creator>, n: nat)
    requires Justified(base, made) && Range(made) <= all && Closed(base, all, s) && n <= |made|
    ensures Range(made[..n]) <= s
  {
    if n > 0 {
      JustifiedInEveryClosed(base, all, made, s, n - 1);
      RangeNext(made, n - 1);
      assert Impls(Range(made[..n - 1])) <= Impls(s);
      assert Satisfied(base, s, made[n - 1]);
    }
  }

  lemma JustifiedLeast(base: set<nat>, all: set<Creator>, made: seq<Creator>)
    requires Justified(base, made) && Range(made) <= all && Closed(base, all, Range(made))
    ensures LeastClosed(base, all, Range(made))
  {
    forall s | Closed(base, all, s) ensures Range(made) <= s {
      JustifiedInEveryClosed(base, all, made, s, |made|);
      RangeWhole(made);
    }
  }

  lemma JustifiedConcat(base: set<nat>, a: seq<Creator>, b: seq<Creator>)
    requires Justified(base, a) && Justified(base + Impls(Range(a)), b)
    ensures Justified(base, a + b)
  {
    forall i | 0 <= i < |a + b| ensures Satisfied(base, Range((a + b)[..i]), (a + b)[i]) {
      if i < |a| {
        assert (a + b)[..i] == a[..i];
        assert Satisfied(base, Range(a[..i]), a[i]);
      } else {
        assert (a + b)[..i] == a + b[..i - |a|];
        assert Satisfied(base + Impls(Range(a)), Range(b[..i - |a|]), b[i - |a|]);
        assert Impls(Range((a + b)[..i])) == Impls(Range(a)) + Impls(Range(b[..i - |a|]));
      }
    }
  }

  lemma {:induction false} ResourcesImplement(ps: seq<Provider>, made: seq<Creator>)
    ensures Implemented(ps + ResourcesOf(made)) == Implemented(ps) + Impls(Range(made))
  {
    if made == [] {
      assert ps + ResourcesOf(made) == ps;
    } else {
      var last := |made| - 1;
      ResourcesImplement(ps, made[..last]);
      RangeNext(made, last);
      assert made[..last + 1] == made;
      ImplementedNext(ps + ResourcesOf(made[..last]), ResourceOf(made[last]));
      assert ps + ResourcesOf(made) == ps + ResourcesOf(made[..last]) + [ResourceOf(made[last])];
      assert Impls(Range(made)) == Impls(Range(made[..last])) + made[last].impls;
    }
  }

  lemma ImplementedNext(ps: seq<Provider>, p: Provider)
    ensures Implemented(ps + [p]) == Implemented(ps) + p.impls
  {
  }

  lemma JustifiedNext(base: set<nat>, made: seq<Creator>, c: Creator)
    requires Justified(base, made) && Satisfied(base, Range(made), c)
    ensures Justified(base, made + [c])
  {
    forall i | 0 <= i < |made + [c]| ensures Satisfied(base, Range((made + [c])[..i]), (made + [c])[i]) {
      if i < |made| {
        assert (made + [c])[..i] == made[..i];
        assert Satisfied(base, Range(made[..i]), made[i]);
      } else {
        assert (made + [c])[..i] == made;
      }
    }
  }

  lemma StillUnsatisfied(base: set<nat>, made: set<Creator>, c: Creator)
    requires !Satisfied(base, made, c)
    ensures !Satisfied(base, {}, c)
  {
    assert Impls({}) == {};
  }

  // What one round did: made in an order that justifies them, left because unsatisfied at the start
  ghost predicate Progressed(base: set<nat>, made: seq<Creator>, left: seq<Creator>) {
    Justified(base, made) && forall c :: c in left ==> !Satisfied(base, {}, c)
  }

  /** A round that makes nothing has reached the least closed set. */
  lemma StuckIsLeast(base: set<nat>, all: seq<Creator>, made: seq<Creator>, left: seq<Creator>)
    requires Splits(all, made, left) && Justified(base, made)
    requires forall c :: c in left ==> !Satisfied(base + Impls(Range(made)), {}, c)
    ensures LeastClosed(base, Range(all), Range(made))
  {
    forall c | c in Range(all) && Satisfied(base, Range(made), c) ensures c in Range(made) {
      assert Impls({}) == {};
      assert c in left ==> Satisfied(base + Impls(Range(made)), {}, c);
      assert c in Range(made) + Range(left);
    }
    JustifiedLeast(base, Range(all), made);
  }

  lemma AllMadeIsLeast(base: set<nat>, all: seq<Creator>, made: seq<Creator>)
    requires Splits(all, made, []) && Justified(base, made)
    ensures LeastClosed(base, Range(all), Range(made)) && Range(made) == Range(all)
  {
    assert Range(made) + Range([]) == Range(made);
    JustifiedLeast(base, Range(all), made);
  }

  // Whatever is not a fatal error justifies what the round did
  lemma RoundStep(ps: seq<Provider>, run: seq<Creator>, left: seq<Creator>, c: Creator)
    requires Progressed(Implemented(ps), run, left)
    ensures var r := ForArgs(ps + ResourcesOf(run), c.args);
            && (r.Resolved? ==> Progressed(Implemented(ps), run + [c], left))
            && (r == Failed(NotFound) ==> Progressed(Implemented(ps), run, left + [c]))
            && (SupportedArgs(c.args) && r.Failed? ==> r.error == NotFound)
  {
    var base := Implemented(ps);
    ResourcesImplement(ps, run);
    ArgsResolveIff(ps + ResourcesOf(run), c.args);
    if Satisfied(base, Range(run), c) {
      JustifiedNext(base, run, c);
    } else {
      StillUnsatisfied(base, Range(run), c);
    }
  }

  lemma Append<T>(a: seq<T>, b: seq<T>, c: seq<T>)
    ensures a + (b + c) == a + b + c
  {
  }

  // What a round makes, leaves for the next one and calls, and the error that ends it for good
  datatype Round = Round(made: seq<Creator>, left: seq<Creator>, called: seq<Creator>, fatal: Option<Failure>)

  function RoundOf(ps: seq<Provider>, cs: seq<Creator>): Round {
    if cs == [] then Round([], [], [], None)
    else
      var front, c := RoundOf(ps, cs[..|cs| - 1]), cs[|cs| - 1];
      if front.fatal.Some? then front else RoundNext(front, ForArgs(ps + ResourcesOf(front.made), c.args), c)
  }

  function RoundNext<T>(r: Round, args: Resolution<T>, c: Creator): Round {
    if args.Failed? then
      (if args.error == NotFound then r.(left := r.left + [c]) else r.(fatal := Some(args.error)))
    else if c.numReturns != 1 then r.(called := r.called + [c], fatal := Some(BadReturns))
    else r.(made := r.made + [c], called := r.called + [c])
  }

  lemma {:induction false} FatalStays(ps: seq<Provider>, cs: seq<Creator>, n: nat)
    requires n <= |cs| && RoundOf(ps, cs[..n]).fatal.Some?
    ensures RoundOf(ps, cs) == RoundOf(ps, cs[..n])
  {
    if n == |cs| {
      assert cs[..n] == cs;
    } else {
      assert cs[..|cs| - 1][..n] == cs[..n];
      FatalStays(ps, cs[..|cs| - 1], n);
    }
  }

  ghost predicate RoundDone(ps: seq<Provider>, cs: seq<Creator>, r: Round) {
    if r.fatal.Some? then Fatal(r.fatal) && Distinct(r.called) && Range(r.called) <= Range(cs) && !Clean(cs)
    else Splits(cs, r.made, r.left) && r.called == r.made && Progressed(Implemented(ps), r.made, r.left)
  }

  /** A round that no fatal error ends splits the creators into a justified order and those unsatisfied at its start. */
  lemma {:induction false} RoundSplits(ps: seq<Provider>, cs: seq<Creator>)
    requires Distinct(cs)
    ensures RoundDone(ps, cs, RoundOf(ps, cs))
  {
    if cs != [] {
      var n := |cs| - 1;
      var front, c := RoundOf(ps, cs[..n]), cs[n];
      RoundSplits(ps, cs[..n]);
      assert cs == cs[..n + 1] && c in cs && Range(cs[..n]) <= Range(cs);
      if front.fatal.Some? {
        assert Clean(cs) ==> Clean(cs[..n]);
      } else {
        SplitsNext(cs, n, front.made, front.left);
        RoundStep(ps, front.made, front.left, c);
        assert Range(front.made + [c]) == Range(front.made) + {c};
      }
    }
  }

  predicate OneReturn(cs: seq<Creator>) {
    forall c :: c in cs ==> c.numReturns == 1
  }

  lemma OneReturnConcat(a: seq<Creator>, b: seq<Creator>)
    ensures OneReturn(a + b) <==> OneReturn(a) && OneReturn(b)
  {
    assert forall c :: c in a + b <==> c in a || c in b;
  }

  /** A creator that is called and does not return one value is not made, and that is the error of the round. */
  lemma {:induction false} RoundReturns(ps: seq<Provider>, cs: seq<Creator>)
    ensures var r := RoundOf(ps, cs);
            OneReturn(r.made) && (r.fatal == Some(BadReturns) <==> !OneReturn(r.called))
  {
    if cs != [] {
      var front, c := RoundOf(ps, cs[..|cs| - 1]), cs[|cs| - 1];
      RoundReturns(ps, cs[..|cs| - 1]);
      ArgsNotBadReturns(ps + ResourcesOf(front.made), c.args);
      OneReturnConcat(front.called, [c]);
      OneReturnConcat(front.made, [c]);
      assert c in [c];
    }
  }

  lemma CalledOnce(all: seq<Creator>, made: seq<Creator>, pending: seq<Creator>, run: seq<Creator>)
    requires Splits(all, made, pending) && Distinct(run) && Range(run) <= Range(pending)
    ensures Distinct(made + run) && Range(made + run) <= Range(all)
  {
    assert Range(made + run) == Range(made) + Range(run);
    forall i, j | 0 <= i < j < |made + run| ensures (made + run)[i] != (made + run)[j] {
      if i < |made| <= j {
        assert (made + run)[i] in Range(made) && (made + run)[j] in Range(run);
      }
    }
  }

  lemma RoundJustified(base: set<nat>, ps: seq<Provider>, made: seq<Creator>, run: seq<Creator>, left: seq<Creator>)
    requires base == Implemented(ps) && Justified(base, made)
    requires Progressed(Implemented(ps + ResourcesOf(made)), run, left)
    ensures Justified(base, made + run)
    ensures run == [] ==> forall c :: c in left ==> !Satisfied(base + Impls(Range(made + run)), {}, c)
  {
    ResourcesImplement(ps, made);
    JustifiedConcat(base, made, run);
    assert run == [] ==> made + run == made;
  }

  lemma PendingClean(all: seq<Creator>, made: seq<Creator>, pending: seq<Creator>)
    requires Clean(all) && Splits(all, made, pending)
    ensures Clean(pending)
  {
    forall c | c in pending ensures c in all {
      assert c in Range(made) + Range(pending);
    }
  }

  lemma {:induction false} ResourcesConcat(a: seq<Creator>, b: seq<Creator>)
    ensures ResourcesOf(a + b) == ResourcesOf(a) + ResourcesOf(b)
  {
    if b == [] {
      assert a + b == a;
    } else {
      var last := |b| - 1;
      assert (a + b)[..|a + b| - 1] == a + b[..last];
      ResourcesConcat(a, b[..last]);
    }
  }

  predicate Fatal(err: Option<Failure>) {
    err.Some? && err.value != NotFound
  }

  class Manager {
    var creators: seq<Creator>
    var resources: seq<Provider>
    // Every creator function called, in order
    ghost var invoked: seq<Creator>

    constructor ()
      ensures creators == [] && resources == [] && invoked == []
    {
      creators, resources, invoked := [], [], [];
    }

    method Register(c: Creator)
      modifies this
      ensures creators == old(creators) + [c] && resources == old(resources) && invoked == old(invoked)
    {
      creators := creators + [c];
    }

    method Create(inv: Invoker, c: Creator) returns (r: Resolution<Provider>)
      modifies this`invoked
      ensures var args := ForArgs(inv.providers, c.args);
              && invoked == old(invoked) + (if args.Resolved? then [c] else [])
              && r == if args.Failed? then Failed(args.error) else if c.numReturns != 1 then Failed(BadReturns)
                  else Resolved(Provider(c.id, c.impls))
    {
      var args := inv.GetArgValues(c.args);
      if args.Failed? {
        return Failed(args.error);
      }
      invoked := invoked + [c];
      if c.numReturns != 1 {
        return Failed(BadReturns);
      }
      return Resolved(ResourceOf(c));
    }

    // One round over the creators still to run
    method InitializeRound(inv: Invoker, cs: seq<Creator>)
      returns (made: seq<Provider>, left: seq<Creator>, err: Option<Failure>)
      modifies inv, this`invoked
      ensures var r := RoundOf(old(inv.providers), cs);
              && inv.providers == old(inv.providers) + ResourcesOf(r.made) && invoked == old(invoked) + r.called
              && if r.fatal.Some? then made == [] && left == [] && err == r.fatal
                 else made == ResourcesOf(r.made) && left == r.left && err == if left == [] then None
                     else Some(NotFound)
    {
      made, left, err := [], [], None;
      ghost var ps := inv.providers;
      ghost var r := Round([], [], [], None);
      for i := 0 to |cs|
        invariant r == RoundOf(ps, cs[..i]) && r.fatal.None? && left == r.left && made == ResourcesOf(r.made)
        invariant inv.providers == ps + made && err == (if left == [] then None else Some(NotFound))
        invariant invoked == old(invoked) + r.called
      {
        var c := cs[i];
        assert cs[..i + 1][..i] == cs[..i];
        assert (r.made + [c])[..|r.made|] == r.made;
        Append(old(invoked), r.called, [c]);
        Append(ps, made, [ResourceOf(c)]);
        r := RoundNext(r, ForArgs(inv.providers, c.args), c);
        var resource := Create(inv, c);
        if resource.Failed? {
          if resource.error != NotFound {
            FatalStays(ps, cs, i + 1);
            return [], [], Some(resource.error);
          }
          left, err := left + [c], Some(NotFound);
        } else {
          made := made + [resource.value];
          inv.AddProvider(resource.value);
        }
      }
      assert cs[..|cs|] == cs;
    }

    /**
      Unless an error of another kind ends it, the resources made are those of the least set closed under
      satisfiable dependencies, and initialization succeeds exactly when that is all of them. Even then nothing is
      made that is not in that set. No creator is ever run twice.
     */
    method Initialize(providers: seq<Provider>)
      returns (err: Option<Failure>, ghost made: seq<Creator>, ghost called: seq<Creator>)
      requires Distinct(creators)
      modifies this
      ensures creators == old(creators) && resources == old(resources) + providers + ResourcesOf(made)
      ensures invoked == old(invoked) + called && Distinct(called) && Range(called) <= Range(creators)
      ensures !Fatal(err) ==> Outcome(creators, providers, made, err)
      ensures InEveryClosed(Implemented(providers), Range(creators), Range(made))
      ensures Clean(creators) ==> !Fatal(err)
      ensures OneReturn(made) && (err == Some(BadReturns) <==> !OneReturn(called))
    {
      resources := resources + providers;
      var inv := new Invoker(providers);
      var pending := creators;
      made, called := [], [];
      StartInv(creators, providers);
      while |pending| > 0
        invariant creators == old(creators) && InitInv(creators, providers, made, pending)
        invariant inv.providers == providers + ResourcesOf(made)
        invariant resources == old(resources) + providers + ResourcesOf(made)
        invariant invoked == old(invoked) + made && OneReturn(made)
        decreases |pending|
      {
        ghost var r := RoundOf(inv.providers, pending);
        RoundSplits(inv.providers, pending);
        RoundReturns(inv.providers, pending);
        OneReturnConcat(made, r.called);
        var round, left, e := InitializeRound(inv, pending);
        ghost var run := r.called;
        if Fatal(e) {
          MadeOnce(creators, providers, made, pending);
          FatalRound(creators, providers, made, pending, run);
          Append(old(invoked), made, run);
          return e, made, made + run;
        }
        AfterRound(creators, providers, made, pending, run, left);
        ResourcesConcat(made, run);
        Append(old(invoked), made, run);
        Append(providers, ResourcesOf(made), round);
        Append(old(resources) + providers, ResourcesOf(made), round);
        resources := resources + round;
        made, pending := made + run, left;
        if e.Some? && |round| == 0 {
          MadeOnce(creators, providers, made, pending);
          return e, made, made;
        }
      }
      MadeOnce(creators, providers, made, []);
      return None, made, made;
    }
  }

  // The state between rounds
  ghost predicate InitInv(all: seq<Creator>, ps: seq<Provider>, made: seq<Creator>, pending: seq<Creator>) {
    Splits(all, made, pending) && Justified(Implemented(ps), made)
  }

  ghost predicate Outcome(all: seq<Creator>, ps: seq<Provider>, made: seq<Creator>, err: Option<Failure>) {
    && LeastClosed(Implemented(ps), Range(all), Range(made))
    && err == if Range(made) == Range(all) then None else Some(NotFound)
  }

  lemma StartInv(all: seq<Creator>, ps: seq<Provider>)
    requires Distinct(all)
    ensures InitInv(all, ps, [], all)
  {
  }

  lemma FatalRound(all: seq<Creator>, ps: seq<Provider>, made: seq<Creator>, pending: seq<Creator>, run: seq<Creator>)
    requires InitInv(all, ps, made, pending) && Distinct(run) && Range(run) <= Range(pending) && !Clean(pending)
    ensures Distinct(made + run) && Range(made + run) <= Range(all) && !Clean(all)
  {
    CalledOnce(all, made, pending, run);
    if Clean(all) {
      PendingClean(all, made, pending);
    }
  }

  lemma AfterRound(all: seq<Creator>, ps: seq<Provider>, made: seq<Creator>, pending: seq<Creator>, run: seq<Creator>,
                   left: seq<Creator>)
    requires InitInv(all, ps, made, pending) && Splits(pending, run, left)
    requires Progressed(Implemented(ps + ResourcesOf(made)), run, left)
    ensures InitInv(all, ps, made + run, left)
    ensures run == [] && left != [] ==> Outcome(all, ps, made + run, Some(NotFound))
  {
    SplitsAgain(all, made, pending, run, left);
    RoundJustified(Implemented(ps), ps, made, run, left);
    if run == [] && left != [] {
      StuckIsLeast(Implemented(ps), all, made + run, left);
      assert left[0] in Range(left);
    }
  }

  lemma MadeOnce(all: seq<Creator>, ps: seq<Provider>, made: seq<Creator>, pending: seq<Creator>)
    requires InitInv(all, ps, made, pending)
    ensures Distinct(made) && Range(made) <= Range(all)
    ensures InEveryClosed(Implemented(ps), Range(all), Range(made))
    ensures pending == [] ==> Outcome(all, ps, made, None)
  {
    forall s | Closed(Implemented(ps), Range(all), s) ensures Range(made) <= s {
      JustifiedInEveryClosed(Implemented(ps), Range(all), made, s, |made|);
      RangeWhole(made);
    }
    if pending == [] {
      AllMadeIsLeast(Implemented(ps), all, made);
    }
  }
}
