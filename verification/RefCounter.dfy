/**
  The reference counter as a machine with one step per atomic operation.

  Any number of clients call Increment and, when it succeeded, Decrement exactly once;
  any number of closers call Close. A thread's program counter names the atomic operation
  it performs next, so a schedule is a sequence of thread numbers and every interleaving
  of the source is some schedule.
 */
module RefCounter {

  datatype Status = Ready | ClosePending | Closed

  datatype Pc =
    | IncLoadStatus      // Increment: load closed
    | IncAdd             // Increment: add 1 to count
    | Using              // Increment succeeded; Decrement comes next and loads count
    | DecAdd             // Decrement: add -1 to count
    | DecLoadStatus      // Decrement reached 0: load closed
    | CloseSwap          // Close: swap Ready for ClosePending
    | CloseLoadCount     // Close: load count
    | NotifySwap         // notifyClosed: swap ClosePending for Closed
    | CallCloser         // notifyClosed: invoke the close function
    | Done
    | Rejected           // Increment returned the closed-resource error
    | Underflow          // Decrement returned the already-0 error

  predicate Finished(pc: Pc) {
    pc.Done? || pc.Rejected? || pc.Underflow?
  }

  predicate Holds(pc: Pc) {
    pc.Using? || pc.DecAdd? || pc.Underflow?
  }

  // Bound to look at the counter again before finishing
  predicate Watches(pc: Pc) {
    pc.CloseLoadCount? || pc.DecLoadStatus? || pc.NotifySwap?
  }

  type Threads = map<nat, Pc>

  // calls counts the invocations of the close function
  datatype State = State(count: int, status: Status, calls: nat, threads: Threads)

  // A thread takes its next atomic step, or a new call starts
  datatype Action = Step(t: nat) | StartClient(t: nat) | StartCloser(t: nat)

  const INT32_RANGE := 0x1_0000_0000
  const MAX_INT32 := 0x7fff_ffff

  /** Two's complement wrap-around of the int32 counter. */
  function Wrap(n: int): int {
    var m := n % INT32_RANGE;
    if m <= MAX_INT32 then m else m - INT32_RANGE
  }

  function Initial(): State {
    State(0, Ready, 0, map[])
  }

  predicate Enabled(s: State, a: Action) {
    match a
    case Step(t) => t in s.threads && !Finished(s.threads[t])
    case StartClient(t) => t !in s.threads
    case StartCloser(t) => t !in s.threads
  }

  function Goto(s: State, t: nat, pc: Pc): State {
    s.(threads := s.threads[t := pc])
  }

  function StepThread(s: State, t: nat): State
    requires Enabled(s, Step(t))
  {
    match s.threads[t]
    case IncLoadStatus => Goto(s, t, if s.status != Ready then Rejected else IncAdd)
    case IncAdd => Goto(s.(count := Wrap(s.count + 1)), t, Using)
    case Using => Goto(s, t, if s.count == 0 then Underflow else DecAdd)
    case DecAdd =>
      var n := Wrap(s.count - 1);
      Goto(s.(count := n), t, if n == 0 then DecLoadStatus else Done)
    case DecLoadStatus => Goto(s, t, if s.status == ClosePending then NotifySwap else Done)
    case CloseSwap =>
      if s.status == Ready then Goto(s.(status := ClosePending), t, CloseLoadCount) else Goto(s, t, Done)
    case CloseLoadCount => Goto(s, t, if s.count == 0 then NotifySwap else Done)
    case NotifySwap =>
      if s.status == ClosePending then Goto(s.(status := Closed), t, CallCloser) else Goto(s, t, Done)
    case CallCloser => Goto(s.(calls := s.calls + 1), t, Done)
  }

  function Next(s: State, a: Action): State
    requires Enabled(s, a)
  {
    match a
    case Step(t) => StepThread(s, t)
    case StartClient(t) => Goto(s, t, IncLoadStatus)
    case StartCloser(t) => Goto(s, t, CloseSwap)
  }

  // The clients that have incremented and not yet decremented
  function Holders(threads: Threads): set<nat> {
    set t | t in threads && Holds(threads[t])
  }

  // The increments that passed the status check and have not yet added
  function Admitted(threads: Threads): set<nat> {
    set t | t in threads && threads[t].IncAdd?
  }

  function Callers(threads: Threads): set<nat> {
    set t | t in threads && threads[t].CallCloser?
  }

  /** Fewer than 2^31 references are held at once. */
  predicate Fits(s: State) {
    |Holders(s.threads)| <= MAX_INT32
  }

  /** s' is reached from s by the schedule, through states that all fit the int32. */
  ghost predicate Run(s: State, schedule: seq<Action>, s': State)
    decreases |schedule|
  {
    Fits(s) &&
    if schedule == [] then s' == s
    else Enabled(s, schedule[0]) && Run(Next(s, schedule[0]), schedule[1..], s')
  }

  predicate Watched(threads: Threads) {
    exists t :: t in threads && Watches(threads[t])
  }

  predicate CountExact(s: State) {
    s.count == |Holders(s.threads)|
  }

  predicate NoUnderflow(s: State) {
    forall t :: t in s.threads ==> !s.threads[t].Underflow?
  }

  // A pending close with no reference left is never forgotten
  predicate NoLostClose(s: State) {
    s.status == ClosePending && s.count == 0 ==> Watched(s.threads)
  }

  // Exactly one invocation is made or owed once the counter is closed, none before
  predicate CallsExact(s: State) {
    s.calls + |Callers(s.threads)| == if s.status == Closed then 1 else 0
  }

  predicate Inv(s: State) {
    CountExact(s) && NoUnderflow(s) && NoLostClose(s) && CallsExact(s)
  }

  lemma HoldersAfter(threads: Threads, t: nat, pc: Pc)
    ensures |Holders(threads[t := pc])| ==
            |Holders(threads)| - (if t in threads && Holds(threads[t]) then 1 else 0) + (if Holds(pc) then 1 else 0)
    ensures t in threads && Holds(threads[t]) ==> |Holders(threads)| > 0
  {
    assert Holders(threads[t := pc]) == if Holds(pc) then Holders(threads) + {t} else Holders(threads) - {t};
  }

  lemma CallersAfter(threads: Threads, t: nat, pc: Pc)
    ensures |Callers(threads[t := pc])| ==
            |Callers(threads)| - (if t in threads && threads[t].CallCloser? then 1 else 0) +
                (if pc.CallCloser? then 1 else 0)
  {
    assert Callers(threads[t := pc]) == if pc.CallCloser? then Callers(threads) + {t} else Callers(threads) - {t};
  }

  lemma WrapFits(n: int)
    requires 0 <= n <= MAX_INT32
    ensures Wrap(n) == n
  {
  }

  lemma CountAfter(s: State, a: Action)
    requires CountExact(s) && Enabled(s, a) && Fits(s) && Fits(Next(s, a))
    ensures CountExact(Next(s, a))
    ensures !Next(s, a).threads[a.t].Underflow?
  {
    var s' := Next(s, a);
    assert s'.threads == s.threads[a.t := s'.threads[a.t]];
    HoldersAfter(s.threads, a.t, s'.threads[a.t]);
    if a.Step? && s.threads[a.t].IncAdd? {
      WrapFits(s.count + 1);
    } else if a.Step? && s.threads[a.t].DecAdd? {
      WrapFits(s.count - 1);
    }
  }

  lemma CallsAfter(s: State, a: Action)
    requires CallsExact(s) && Enabled(s, a)
    ensures CallsExact(Next(s, a))
  {
    var s' := Next(s, a);
    assert s'.threads == s.threads[a.t := s'.threads[a.t]];
    CallersAfter(s.threads, a.t, s'.threads[a.t]);
  }

  lemma WatchedAfter(s: State, a: Action)
    requires CountExact(s) && NoLostClose(s) && Enabled(s, a)
    requires CountExact(Next(s, a))
    ensures NoLostClose(Next(s, a))
  {
    var s' := Next(s, a);
    HoldersAfter(s.threads, a.t, s'.threads[a.t]);
    if s'.status == ClosePending && s'.count == 0 {
      if !Watches(s'.threads[a.t]) {
        var w :| w in s.threads && Watches(s.threads[w]);
        assert w in s'.threads;
      }
    }
  }

  lemma StepKeepsInv(s: State, a: Action)
    requires Inv(s) && Enabled(s, a) && Fits(s) && Fits(Next(s, a))
    ensures Inv(Next(s, a))
  {
    CountAfter(s, a);
    CallsAfter(s, a);
    WatchedAfter(s, a);
  }

  lemma {:induction false} RunKeepsInv(s: State, schedule: seq<Action>, s': State)
    requires Inv(s) && Run(s, schedule, s')
    ensures Inv(s') && Fits(s')
    decreases |schedule|
  {
    if schedule != [] {
      StepKeepsInv(s, schedule[0]);
      RunKeepsInv(Next(s, schedule[0]), schedule[1..], s');
    }
  }

  // No call is half way through: every thread has returned, or holds a reference
  predicate Quiescent(s: State) {
    forall t :: t in s.threads ==> Finished(s.threads[t]) || s.threads[t].Using?
  }

  /**
    Every interleaving: the count is the number of references held, so it is never negative and
    no paired Decrement is refused; the close function runs at most once; and when everything is
    quiet, the counter has been closed and no reference is left, it has run.
   */
  lemma EveryInterleavingClosesOnce(schedule: seq<Action>, s: State)
    requires Run(Initial(), schedule, s)
    ensures 0 <= s.count == |Holders(s.threads)| && NoUnderflow(s)
    ensures s.calls <= 1
    ensures Quiescent(s) && s.status != Ready && s.count == 0 ==> s.calls == 1
  {
    assert Holders(Initial().threads) == {} && Callers(Initial().threads) == {};
    RunKeepsInv(Initial(), schedule, s);
    if Quiescent(s) {
      assert Callers(s.threads) == {};
    }
  }

  lemma {:induction false} StaysClosing(s: State, schedule: seq<Action>, s': State)
    requires s.status != Ready && Run(s, schedule, s')
    ensures s'.status != Ready
    decreases |schedule|
  {
    if schedule != [] {
      StaysClosing(Next(s, schedule[0]), schedule[1..], s');
    }
  }

  lemma {:induction false} SwapTakesEffect(s: State, schedule: seq<Action>, s': State, t: nat)
    requires t in s.threads && s.threads[t].CloseSwap? && Run(s, schedule, s')
    ensures t in s'.threads
    ensures s'.threads[t].CloseSwap? || s'.status != Ready
    decreases |schedule|
  {
    if schedule != [] {
      if schedule[0] == Step(t) {
        StaysClosing(Next(s, schedule[0]), schedule[1..], s');
        Stays(Next(s, schedule[0]), schedule[1..], s', t);
      } else {
        SwapTakesEffect(Next(s, schedule[0]), schedule[1..], s', t);
      }
    }
  }

  lemma {:induction false} Stays(s: State, schedule: seq<Action>, s': State, t: nat)
    requires t in s.threads && Run(s, schedule, s')
    ensures t in s'.threads
    decreases |schedule|
  {
    if schedule != [] {
      Stays(Next(s, schedule[0]), schedule[1..], s', t);
    }
  }

  /** A Close whose first swap was scheduled has put the counter in a closing state for good. */
  lemma {:induction false} CloseTakesEffect(s: State, schedule: seq<Action>, s': State, t: nat)
    requires Run(s, schedule, s') && StartCloser(t) in schedule
    ensures t in s'.threads
    ensures s'.threads[t].CloseSwap? || s'.status != Ready
    decreases |schedule|
  {
    var s1 := Next(s, schedule[0]);
    if schedule[0] == StartCloser(t) {
      SwapTakesEffect(s1, schedule[1..], s', t);
    } else {
      CloseTakesEffect(s1, schedule[1..], s', t);
    }
  }

  /** No lost close: once every call has returned and every reference is released, a Close was enough. */
  lemma NoCloseIsLost(schedule: seq<Action>, s: State, t: nat)
    requires Run(Initial(), schedule, s) && StartCloser(t) in schedule
    requires forall u :: u in s.threads ==> Finished(s.threads[u])
    ensures s.calls == 1
  {
    CloseTakesEffect(Initial(), schedule, s, t);
    EveryInterleavingClosesOnce(schedule, s);
    RunKeepsInv(Initial(), schedule, s) by {
      assert Holders(Initial().threads) == {} && Callers(Initial().threads) == {};
    }
    assert Holders(s.threads) == {};
  }

  // Every thread's remaining steps are bounded, so a schedule that starts nothing new ends
  function Remaining(pc: Pc): nat {
    match pc
    case IncLoadStatus => 7
    case IncAdd => 6
    case Using => 5
    case DecAdd => 4
    case CloseSwap => 4
    case DecLoadStatus => 3
    case CloseLoadCount => 3
    case NotifySwap => 2
    case CallCloser => 1
    case _ => 0
  }

  lemma StepsAreBounded(s: State, t: nat)
    requires Enabled(s, Step(t))
    ensures Remaining(StepThread(s, t).threads[t]) < Remaining(s.threads[t])
    ensures forall u :: u in s.threads && u != t ==> StepThread(s, t).threads[u] == s.threads[u]
  {
  }

  // ----- When the close function runs, is the count 0?

  predicate AboutToCall(s: State) {
    exists t :: t in s.threads && s.threads[t].CallCloser?
  }

  lemma RunFrom(s: State, a: Action, rest: seq<Action>, s': State)
    requires Fits(s) && Enabled(s, a) && Run(Next(s, a), rest, s')
    ensures Run(s, [a] + rest, s')
  {
    assert ([a] + rest)[1..] == rest;
  }

  /** An Increment that passed its status check before Close may add after it. */
  lemma CloseFunctionMayRunUnderAReference() returns (schedule: seq<Action>, s: State)
    ensures Run(Initial(), schedule, s) && AboutToCall(s) && s.count == 1
  {
    // Client 0 is admitted; closer 1 runs up to the call; client 0 adds
    var s2 := State(0, Ready, 0, map[0 := IncAdd]);
    var s4 := State(0, ClosePending, 0, map[0 := IncAdd, 1 := CloseLoadCount]);
    s := State(1, Closed, 0, map[0 := Using, 1 := CallCloser]);
    assert s.threads[1].CallCloser?;
    var second := AdmittedAfterClose(s4, s);
    var first := CloserOvertakes(s2, s4, second, s);
    schedule := [StartClient(0), Step(0)] + first;
    var s1 := Next(Initial(), StartClient(0));
    assert Holders(s1.threads) == {} && Holders(Initial().threads) == {};
    assert Next(s1, Step(0)).threads == s2.threads;
    RunFrom(s1, Step(0), first, s);
    RunFrom(Initial(), StartClient(0), [Step(0)] + first, s);
    assert schedule == [StartClient(0)] + ([Step(0)] + first);
  }

  lemma AdmittedAfterClose(s4: State, s: State) returns (schedule: seq<Action>)
    requires s4 == State(0, ClosePending, 0, map[0 := IncAdd, 1 := CloseLoadCount])
    requires s == State(1, Closed, 0, map[0 := Using, 1 := CallCloser])
    ensures Run(s4, schedule, s)
  {
    var s5 := Next(s4, Step(1));
    var s6 := Next(s5, Step(1));
    assert Holders(s4.threads) == {} && Holders(s5.threads) == {} && Holders(s6.threads) == {};
    assert Holders(s.threads) == {0};
    assert Next(s6, Step(0)).threads == s.threads;
    RunFrom(s6, Step(0), [], s);
    RunFrom(s5, Step(1), [Step(0)], s);
    RunFrom(s4, Step(1), [Step(1), Step(0)], s);
    schedule := [Step(1)] + [Step(1), Step(0)];
  }

  lemma CloserOvertakes(s2: State, s4: State, rest: seq<Action>, s: State) returns (schedule: seq<Action>)
    requires s2 == State(0, Ready, 0, map[0 := IncAdd])
    requires s4 == State(0, ClosePending, 0, map[0 := IncAdd, 1 := CloseLoadCount])
    requires Run(s4, rest, s)
    ensures Run(s2, schedule, s)
  {
    var s3 := Next(s2, StartCloser(1));
    assert Holders(s2.threads) == {} && Holders(s3.threads) == {};
    assert Next(s3, Step(1)).threads == s4.threads;
    RunFrom(s3, Step(1), rest, s);
    RunFrom(s2, StartCloser(1), [Step(1)] + rest, s);
    schedule := [StartCloser(1)] + ([Step(1)] + rest);
  }

  predicate Drained(s: State) {
    s.status == Closed && s.count == 0 && Holders(s.threads) == {} && Admitted(s.threads) == {}
  }

  lemma {:induction false} DrainedForGood(s: State, schedule: seq<Action>, s': State)
    requires Drained(s) && Run(s, schedule, s')
    ensures Drained(s')
    decreases |schedule|
  {
    if schedule != [] {
      var a := schedule[0];
      var s1 := Next(s, a);
      assert a.Step? ==> a.t !in Holders(s.threads) && a.t !in Admitted(s.threads);
      assert Drained(s1);
      DrainedForGood(s1, schedule[1..], s');
    }
  }

  ghost predicate AlwaysCalledAtZero(s: State) {
    forall schedule, s' :: Run(s, schedule, s') && AboutToCall(s') ==> s'.count == 0
  }

  lemma CalledUnderReference(s: State, schedule: seq<Action>, s': State)
    requires Run(s, schedule, s') && AboutToCall(s') && s'.count != 0
    ensures !AlwaysCalledAtZero(s)
  {
  }

  /**
    At the swap that decides to call the close function, every continuation calls it with the
    count at 0 exactly when no reference is held and no Increment is past its status check.
   */
  lemma CalledAtZeroIff(s: State, t: nat)
    requires Inv(s) && Fits(s) && s.status == ClosePending
    requires t in s.threads && s.threads[t].NotifySwap?
    ensures AlwaysCalledAtZero(StepThread(s, t)) <==> Holders(s.threads) == {} && Admitted(s.threads) == {}
  {
    var s1 := StepThread(s, t);
    assert Holders(s1.threads) == Holders(s.threads);
    assert Admitted(s1.threads) == Admitted(s.threads);
    assert s1.threads[t].CallCloser?;
    if Holders(s.threads) == {} && Admitted(s.threads) == {} {
      forall schedule, s' | Run(s1, schedule, s') && AboutToCall(s') ensures s'.count == 0 {
        DrainedForGood(s1, schedule, s');
      }
    } else if Holders(s.threads) != {} {
      CalledUnderReference(s1, [], s1);
    } else {
      var u :| u in Admitted(s.threads);
      var s2 := StepThread(s1, u);
      CountAfter(s1, Step(u)) by {
        assert Holders(s2.threads) == {u};
      }
      RunFrom(s1, Step(u), [], s2);
      assert s2.threads[t].CallCloser?;
      CalledUnderReference(s1, [Step(u)] + [], s2);
    }
  }

  // ----- Each method as one step

  /** Thread t runs alone until its method returns. */
  function Solo(s: State, t: nat): (r: State)
    requires t in s.threads
    ensures t in r.threads && (Finished(r.threads[t]) || r.threads[t].Using?)
    decreases Remaining(s.threads[t])
  {
    if Finished(s.threads[t]) || s.threads[t].Using? then s else Solo(StepThread(s, t), t)
  }

  // A whole method call by thread t, on a counter where nobody else is half way
  datatype Call = Increment(t: nat) | Decrement(t: nat) | Close(t: nat)

  predicate CanCall(s: State, c: Call) {
    match c
    case Decrement(t) => t in s.threads && s.threads[t].Using?
    case _ => c.t !in s.threads
  }

  function AfterCall(s: State, c: Call): (r: State)
    requires CanCall(s, c)
    ensures c.t in r.threads
  {
    match c
    case Increment(t) => Solo(Goto(s, t, IncLoadStatus), t)
    case Decrement(t) => Solo(StepThread(s, t), t)
    case Close(t) => Solo(Goto(s, t, CloseSwap), t)
  }

  // With whole methods as steps, a closed counter has no references and none to come
  predicate WholeInv(s: State) {
    && Quiescent(s) && CountExact(s) && NoUnderflow(s)
    && (s.status == ClosePending ==> s.count != 0)
    && (s.status == Closed ==> s.count == 0)
  }

  lemma WholeCallKeepsInv(s: State, c: Call)
    requires WholeInv(s) && CanCall(s, c) && |Holders(s.threads)| < MAX_INT32
    ensures var s' := AfterCall(s, c);
            WholeInv(s') && (s'.calls > s.calls ==> s'.count == 0 && s.status != Closed == s'.status)
  {
    var s' := AfterCall(s, c);
    WholeCallEffect(s, c);
    HoldersAfter(s.threads, c.t, s'.threads[c.t]);
  }

  lemma WholeCallEffect(s: State, c: Call)
    requires WholeInv(s) && CanCall(s, c) && |Holders(s.threads)| < MAX_INT32
    ensures var s' := AfterCall(s, c);
            && s'.threads == s.threads[c.t := s'.threads[c.t]]
            && s'.count == s.count + (if c.Increment? && s.status == Ready then 1 else if c.Decrement? then -1 else 0)
            && (s'.threads[c.t].Using? <==> c.Increment? && s.status == Ready)
            && !s'.threads[c.t].Underflow?
            && (s'.status == Closed <==>
                s.status == Closed || (s'.count == 0 && (c.Close? || s.status == ClosePending)))
            && (s'.status == Ready <==> s.status == Ready && !c.Close?)
            && s'.calls == s.calls + if s'.status == Closed && s.status != Closed then 1 else 0
  {
    match c
    case Increment(t) =>
      IncrementRuns(s, t);
      WrapFits(s.count + 1);
    case Decrement(t) =>
      HoldersAfter(s.threads, t, Done);
      WrapFits(s.count - 1);
      DecrementRuns(s, t);
    case Close(t) =>
      CloseRuns(s, t);
  }

  ghost predicate WholeRun(s: State, calls: seq<Call>, s': State)
    decreases |calls|
  {
    |Holders(s.threads)| < MAX_INT32 &&
    if calls == [] then s' == s
    else CanCall(s, calls[0]) && WholeRun(AfterCall(s, calls[0]), calls[1..], s')
  }

  /**
    With every method one step, the close function is called at most once, only when the count is 0,
    and from then on the count stays 0; an open counter has never called it.
   */
  lemma {:induction false} WholeMethodsCloseAtZero(s: State, calls: seq<Call>, s': State)
    requires WholeInv(s) && s.calls == (if s.status == Closed then 1 else 0) && WholeRun(s, calls, s')
    ensures WholeInv(s') && s'.calls == if s'.status == Closed then 1 else 0
    ensures s'.calls > 0 ==> s'.count == 0
    decreases |calls|
  {
    if calls != [] {
      WholeCallKeepsInv(s, calls[0]);
      WholeCallEffect(s, calls[0]);
      WholeMethodsCloseAtZero(AfterCall(s, calls[0]), calls[1..], s');
    }
  }

  lemma IncrementRuns(s: State, t: nat)
    requires t !in s.threads
    ensures AfterCall(s, Increment(t)) ==
            if s.status != Ready then Goto(s, t, Rejected) else Goto(s.(count := Wrap(s.count + 1)), t, Using)
  {
    var s0 := Goto(s, t, IncLoadStatus);
    var s1 := StepThread(s0, t);
    assert Solo(s0, t) == Solo(s1, t);
    if s.status == Ready {
      assert Solo(s1, t) == StepThread(s1, t);
      assert StepThread(s1, t).threads == s.threads[t := Using];
    } else {
      assert s1.threads == s.threads[t := Rejected];
    }
  }

  lemma DecrementRuns(s: State, t: nat)
    requires t in s.threads && s.threads[t].Using?
    ensures var n := Wrap(s.count - 1);
            var closes := n == 0 && s.status == ClosePending;
            AfterCall(s, Decrement(t)) ==
            if s.count == 0 then Goto(s, t, Underflow)
            else State(n, if closes then Closed else s.status,
                       if closes then s.calls + 1 else s.calls, s.threads[t := Done])
  {
    var s1 := StepThread(s, t);
    if s.count != 0 {
      var s2 := StepThread(s1, t);
      assert Solo(s1, t) == Solo(s2, t);
      if s2.count == 0 {
        var s3 := StepThread(s2, t);
        assert Solo(s2, t) == Solo(s3, t);
        if s.status == ClosePending {
          NotifyRuns(s3, t);
          assert s3.threads[t := Done] == s.threads[t := Done];
        } else {
          assert s3.threads == s.threads[t := Done];
        }
      } else {
        assert s2.threads == s.threads[t := Done];
      }
    }
  }

  lemma NotifyRuns(s: State, t: nat)
    requires t in s.threads && s.threads[t].NotifySwap? && s.status == ClosePending
    ensures Solo(s, t) == State(s.count, Closed, s.calls + 1, s.threads[t := Done])
  {
    var s1 := StepThread(s, t);
    var s2 := StepThread(s1, t);
    assert Solo(s, t) == Solo(s1, t) == Solo(s2, t) == s2;
    assert s2.threads == s.threads[t := Done];
  }

  lemma CloseRuns(s: State, t: nat)
    requires t !in s.threads
    ensures var closes := s.count == 0 && s.status == Ready;
            AfterCall(s, Close(t)) ==
            State(s.count, if closes then Closed else if s.status == Ready then ClosePending else s.status,
                  if closes then s.calls + 1 else s.calls, s.threads[t := Done])
  {
    var s0 := Goto(s, t, CloseSwap);
    var s1 := StepThread(s0, t);
    assert Solo(s0, t) == Solo(s1, t);
    if s.status == Ready {
      var s2 := StepThread(s1, t);
      assert Solo(s1, t) == Solo(s2, t);
      if s.count == 0 {
        NotifyRuns(s2, t);
        assert s2.threads[t := Done] == s.threads[t := Done];
      } else {
        assert s2.threads == s.threads[t := Done];
      }
    } else {
      assert s1.threads == s.threads[t := Done];
    }
  }

  // The counter object, with every method run without interruption
  class Counter {
    var count: int
    var closed: Status
    var calls: nat

    constructor ()
      ensures View(map[]) == Initial()
    {
      count, closed, calls := 0, Ready, 0;
    }

    // The machine state this object and the given threads make up
    function View(threads: Threads): State
      reads this
    {
      State(count, closed, calls, threads)
    }

    method Increment(ghost threads: Threads, ghost t: nat) returns (n: int, ok: bool)
      requires t !in threads
      modifies this
      ensures var s := AfterCall(old(View(threads)), Call.Increment(t));
              View(s.threads) == s && ok == s.threads[t].Using? && n == if ok then count else 0
    {
      IncrementRuns(View(threads), t);
      if closed != Ready {
        return 0, false;
      }
      count := Wrap(count + 1);
      return count, true;
    }

    method Decrement(ghost threads: Threads, ghost t: nat) returns (n: int, ok: bool)
      requires t in threads && threads[t].Using?
      modifies this
      ensures var s := AfterCall(old(View(threads)), Call.Decrement(t));
              View(s.threads) == s && ok == !s.threads[t].Underflow? && n == if ok then count else 0
    {
      DecrementRuns(View(threads), t);
      if count == 0 {
        return 0, false;
      }
      count := Wrap(count - 1);
      if count == 0 && closed == ClosePending {
        NotifyClosed();
      }
      return count, true;
    }

    method Close(ghost threads: Threads, ghost t: nat)
      requires t !in threads
      modifies this
      ensures var s := AfterCall(old(View(threads)), Call.Close(t)); View(s.threads) == s
    {
      CloseRuns(View(threads), t);
      if closed != Ready {
        return;
      }
      closed := ClosePending;
      if count == 0 {
        NotifyClosed();
      }
    }

    method NotifyClosed()
      modifies this
      ensures count == old(count)
      ensures closed == if old(closed) == ClosePending then Closed else old(closed)
      ensures calls == old(calls) + if old(closed) == ClosePending then 1 else 0
    {
      if closed == ClosePending {
        closed := Closed;
        calls := calls + 1;
      }
    }
  }
}
