/** The block visitor walks a block and hands everything it finds to handlers until an error handler stops it. */
module BlockVisitor {
  import opened PvtTypes

  // ----- A block, as its nested messages decode

  datatype Dec<T> = Good(value: T) | Bad

  // key and the decoded forms of value that a lifecycle write may have
  datatype Write = Write(key: string, value: Bytes, asConfig: Dec<Bytes>, asChaincode: Dec<Bytes>)

  datatype CollHash = CollHash(coll: string, readSet: seq<Bytes>, writeSet: seq<Bytes>)

  datatype NsRwSet = NsRwSet(ns: string, readSet: seq<Bytes>, writeSet: seq<Write>, colls: seq<CollHash>)

  // Results and events are absent when empty
  datatype CCAction = CCAction(results: Option<Dec<seq<NsRwSet>>>, event: Option<Dec<Bytes>>)

  // The extension of a proposal response; a response; an action payload
  datatype Response = Response(extension: Dec<CCAction>)

  datatype ActionPayload = ActionPayload(proposalDecodes: bool, response: Dec<Response>)

  datatype Tx = Tx(actions: seq<Dec<ActionPayload>>)

  datatype KvRwSet = KvRwSet(readSet: seq<Bytes>, writeSet: seq<Write>)

  datatype PvtColl = PvtColl(coll: string, rwset: Dec<KvRwSet>)

  datatype PvtNs = PvtNs(ns: string, colls: seq<PvtColl>)

  datatype Payload =
    | Endorser(txId: string, tx: Dec<Tx>)
    | ConfigUpdate(envelope: Dec<Dec<Bytes>>)
    | OtherType

  datatype Block = Block(number: uint64, envelopes: seq<Dec<Dec<Payload>>>, valid: set<nat>, pvt: map<nat, seq<PvtNs>>)

  const LSCC := "lscc"

  // ----- What there is to hand out

  datatype TxId = TxId(num: nat, id: string)

  datatype Event =
    | OfBlock(number: uint64)
    | OfRead(tx: TxId, ns: string, read: Bytes)
    | OfWrite(tx: TxId, ns: string, write: Write)
    | OfHashRead(tx: TxId, ns: string, coll: string, hash: Bytes)
    | OfHashWrite(tx: TxId, ns: string, coll: string, hash: Bytes)
    | OfLscc(tx: TxId, ccId: string, ccData: Option<Bytes>, config: Option<Bytes>)
    | OfCCEvent(tx: TxId, event: Bytes)
    | OfConfig(update: Bytes)
    | Corrupt(txNum: Option<nat>, txId: Option<string>)

  function CorruptTx(tx: TxId): Event {
    Corrupt(Some(tx.num), Some(tx.id))
  }

  function FlatMap<T>(xs: seq<T>, f: T -> seq<Event>): seq<Event> {
    if xs == [] then [] else FlatMap(xs[..|xs| - 1], f) + f(xs[|xs| - 1])
  }

  // What one element of each list stands for
  function EachRead(tx: TxId, ns: string): Bytes -> seq<Event> { r => [OfRead(tx, ns, r)] }

  function EachWrite(tx: TxId, ns: string): Write -> seq<Event> { w => [OfWrite(tx, ns, w)] }

  function EachHashRead(tx: TxId, ns: string, coll: string): Bytes -> seq<Event> { r => [OfHashRead(tx, ns, coll, r)] }

  function EachHashWrite(tx: TxId, ns: string, coll: string): Bytes -> seq<Event> {
    w => [OfHashWrite(tx, ns, coll, w)]
  }

  function EachColl(tx: TxId, ns: string): CollHash -> seq<Event> { c => OfCollHash(tx, ns, c) }

  function EachNs(tx: TxId): NsRwSet -> seq<Event> { s => OfNs(tx, s) }

  function EachAction(tx: TxId): Dec<ActionPayload> -> seq<Event> { a => OfAction(tx, a) }

  function EachPvtColl(tx: TxId, ns: string): PvtColl -> seq<Event> { c => OfPvtColl(tx, ns, c) }

  function EachPvtNs(tx: TxId): PvtNs -> seq<Event> { n => OfPvtNs(tx, n) }

  function OfCollHash(tx: TxId, ns: string, c: CollHash): seq<Event> {
    FlatMap(c.readSet, EachHashRead(tx, ns, c.coll)) + FlatMap(c.writeSet, EachHashWrite(tx, ns, c.coll))
  }

  // A key naming a collection configuration holds the separator
  predicate IsConfigKey(key: string) {
    '~' in key
  }

  datatype CCInfo = CCInfo(id: string, data: Option<Bytes>, config: Option<Bytes>)

  // The last chaincode and the last collection configuration written; none when a value does not decode
  function CCInfoOf(writeSet: seq<Write>): Option<CCInfo> {
    if writeSet == [] then Some(CCInfo("", None, None))
    else
      var front, w := CCInfoOf(writeSet[..|writeSet| - 1]), writeSet[|writeSet| - 1];
      if front.None? then None
      else if IsConfigKey(w.key) then
        (if w.asConfig.Bad? then None else Some(front.value.(config := Some(w.asConfig.value))))
      else
        (if w.asChaincode.Bad? then None else Some(front.value.(id := w.key, data := Some(w.asChaincode.value))))
  }

  function Lscc(tx: TxId, writeSet: seq<Write>): seq<Event> {
    if writeSet == [] then []
    else
      var info := CCInfoOf(writeSet);
      if info.None? then [CorruptTx(tx)] else [OfLscc(tx, info.value.id, info.value.data, info.value.config)]
  }

  // A lifecycle namespace is one event in place of its writes and collections
  function OfNs(tx: TxId, s: NsRwSet): seq<Event> {
    FlatMap(s.readSet, EachRead(tx, s.ns)) +
    if s.ns == LSCC then Lscc(tx, s.writeSet)
    else FlatMap(s.writeSet, EachWrite(tx, s.ns)) + FlatMap(s.colls, EachColl(tx, s.ns))
  }

  function OfResults(tx: TxId, results: Option<Dec<seq<NsRwSet>>>): seq<Event> {
    match results
    case None => []
    case Some(Bad) => [CorruptTx(tx)]
    case Some(Good(sets)) => FlatMap(sets, EachNs(tx))
  }

  function OfEvents(tx: TxId, event: Option<Dec<Bytes>>): seq<Event> {
    match event
    case None => []
    case Some(Bad) => [CorruptTx(tx)]
    case Some(Good(e)) => [OfCCEvent(tx, e)]
  }

  function OfAction(tx: TxId, a: Dec<ActionPayload>): seq<Event> {
    if a.Bad? || !a.value.proposalDecodes || a.value.response.Bad? || a.value.response.value.extension.Bad?
    then [CorruptTx(tx)]
    else
      var action := a.value.response.value.extension.value;
      OfResults(tx, action.results) + OfEvents(tx, action.event)
  }

  function OfPvtColl(tx: TxId, ns: string, c: PvtColl): seq<Event> {
    if c.rwset.Bad? then [CorruptTx(tx)]
    else
      var collNs := ns + "$$p" + c.coll;
      FlatMap(c.rwset.value.readSet, EachRead(tx, collNs)) + FlatMap(c.rwset.value.writeSet, EachWrite(tx, collNs))
  }

  function OfPvtNs(tx: TxId, n: PvtNs): seq<Event> {
    FlatMap(n.colls, EachPvtColl(tx, n.ns))
  }

  function OfTx(tx: TxId, t: Tx, pvt: seq<PvtNs>): seq<Event> {
    FlatMap(t.actions, EachAction(tx)) + FlatMap(pvt, EachPvtNs(tx))
  }

  // An update envelope that does not decode is passed over without a word
  function OfConfigUpdate(envelope: Dec<Dec<Bytes>>): seq<Event> {
    if envelope.Bad? then []
    else if envelope.value.Bad? then [Corrupt(None, None)]
    else [OfConfig(envelope.value.value)]
  }

  function PvtOf(b: Block, num: nat): seq<PvtNs> {
    if num in b.pvt then b.pvt[num] else []
  }

  function OfPayload(b: Block, num: nat, p: Payload): seq<Event> {
    match p
    case Endorser(id, tx) =>
      if num !in b.valid then []
      else if tx.Bad? then [Corrupt(Some(num), Some(id))]
      else OfTx(TxId(num, id), tx.value, PvtOf(b, num))
    case ConfigUpdate(envelope) => OfConfigUpdate(envelope)
    case OtherType => []
  }

  function OfEnvelope(b: Block, num: nat): seq<Event>
    requires num < |b.envelopes|
  {
    match b.envelopes[num]
    case Bad => [Corrupt(None, None)]
    case Good(Bad) => [Corrupt(Some(num), None)]
    case Good(Good(p)) => OfPayload(b, num, p)
  }

  function EachEnvelope(b: Block): nat -> seq<Event> {
    (num: nat) => if num < |b.envelopes| then OfEnvelope(b, num) else []
  }

  function Indices(n: nat): seq<nat> {
    seq(n, i => i)
  }

  /** Everything in the block, in order: valid transactions only, undecodable parts in the place of what they hide. */
  function Flatten(b: Block): seq<Event> {
    [OfBlock(b.number)] + FlatMap(Indices(|b.envelopes|), EachEnvelope(b))
  }

  // ----- Handlers

  // Whether a handler fails, and whether the error handler then does, may depend on everything handed out so far
  datatype Handlers = Handlers(fails: seq<Event> -> bool, errorFails: seq<Event> -> bool)

  // The last event was in error and the error handler did not let it pass
  predicate Halts(h: Handlers, trace: seq<Event>) {
    trace != [] && (trace[|trace| - 1].Corrupt? || h.fails(trace)) && h.errorFails(trace)
  }

  datatype Outcome = Outcome(trace: seq<Event>, halted: bool)

  // Handing out events one after another until one halts
  function Handled(h: Handlers, trace: seq<Event>, todo: seq<Event>): Outcome {
    if todo == [] then Outcome(trace, false)
    else
      var front := Handled(h, trace, todo[..|todo| - 1]);
      if front.halted then front
      else var next := front.trace + [todo[|todo| - 1]]; Outcome(next, Halts(h, next))
  }

  lemma {:induction false} HandledConcat(h: Handlers, trace: seq<Event>, a: seq<Event>, b: seq<Event>)
    ensures Handled(h, trace, a + b) ==
            if Handled(h, trace, a).halted then Handled(h, trace, a) else Handled(h, Handled(h, trace, a).trace, b)
  {
    if b == [] {
      assert a + b == a;
    } else {
      var last := |b| - 1;
      HandledConcat(h, trace, a, b[..last]);
      assert (a + b)[..|a + b| - 1] == a + b[..last];
    }
  }

  // No event after the start halted before the last one
  ghost predicate NoneBefore(h: Handlers, from: nat, trace: seq<Event>) {
    forall i :: from < i < |trace| ==> !Halts(h, trace[..i])
  }

  // The trace goes on from start with a prefix of the events: all of them, or up to the first that halts
  ghost predicate Walked(h: Handlers, start: seq<Event>, todo: seq<Event>, o: Outcome) {
    && start <= o.trace <= start + todo && NoneBefore(h, |start|, o.trace)
    && if o.halted then |start| < |o.trace| && Halts(h, o.trace)
       else o.trace == start + todo && (|start| < |o.trace| ==> !Halts(h, o.trace))
  }

  lemma NoneBeforeNext(h: Handlers, from: nat, trace: seq<Event>, e: Event)
    requires NoneBefore(h, from, trace) && (from < |trace| ==> !Halts(h, trace))
    ensures NoneBefore(h, from, trace + [e])
  {
    forall i | from < i < |trace + [e]| ensures !Halts(h, (trace + [e])[..i]) {
      if i < |trace| {
        assert (trace + [e])[..i] == trace[..i];
      } else {
        assert (trace + [e])[..i] == trace;
      }
    }
  }

  /**
    What is handed out is a prefix of the events: all of them when none halts, and otherwise up to the first
    whose error the error handler does not let pass.
   */
  lemma {:induction false} HandledExactly(h: Handlers, start: seq<Event>, todo: seq<Event>)
    ensures Walked(h, start, todo, Handled(h, start, todo))
  {
    if todo == [] {
      assert start + todo == start;
    } else {
      var last := |todo| - 1;
      HandledExactly(h, start, todo[..last]);
      var front := Handled(h, start, todo[..last]);
      assert start + todo == start + todo[..last] + [todo[last]];
      if !front.halted {
        NoneBeforeNext(h, |start|, front.trace, todo[last]);
      }
    }
  }

  ghost predicate LetsAllPass(h: Handlers) {
    forall t :: !h.errorFails(t)
  }

  /** An error handler that lets everything pass sees the whole block handed out. */
  lemma CompleteWhenAllPass(h: Handlers, start: seq<Event>, b: Block)
    requires LetsAllPass(h)
    ensures Handled(h, start, Flatten(b)) == Outcome(start + Flatten(b), false)
  {
    HandledExactly(h, start, Flatten(b));
  }

  // ----- Walking the block

  lemma {:induction false} FlatMapConcat<T>(a: seq<T>, b: seq<T>, f: T -> seq<Event>)
    ensures FlatMap(a + b, f) == FlatMap(a, f) + FlatMap(b, f)
  {
    if b == [] {
      assert a + b == a;
    } else {
      var last := |b| - 1;
      assert (a + b)[..|a + b| - 1] == a + b[..last];
      FlatMapConcat(a, b[..last], f);
    }
  }

  // More of the events were walked
  lemma WalkStep(h: Handlers, start: seq<Event>, done: seq<Event>, more: seq<Event>, all: seq<Event>, trace: seq<Event>)
    requires Handled(h, start, done) == Outcome(trace, false) && done + more <= all
    ensures var o := Handled(h, trace, more);
            Handled(h, start, done + more) == o && (o.halted ==> Handled(h, start, all) == o)
  {
    HandledConcat(h, start, done, more);
    HandledConcat(h, start, done + more, all[|done + more|..]);
    assert all == done + more + all[|done + more|..];
  }

  // One more element of a list was walked
  lemma LoopStep<T>(h: Handlers, start: seq<Event>, xs: seq<T>, i: nat, f: T -> seq<Event>, trace: seq<Event>)
    requires i < |xs| && Handled(h, start, FlatMap(xs[..i], f)) == Outcome(trace, false)
    ensures var o := Handled(h, trace, f(xs[i]));
            && Handled(h, start, FlatMap(xs[..i + 1], f)) == o
            && (o.halted ==> Handled(h, start, FlatMap(xs, f)) == o)
  {
    assert xs[..i + 1][..i] == xs[..i];
    assert xs == xs[..i + 1] + xs[i + 1..];
    FlatMapConcat(xs[..i + 1], xs[i + 1..], f);
    WalkStep(h, start, FlatMap(xs[..i], f), f(xs[i]), FlatMap(xs, f), trace);
  }

  lemma LoopDone<T>(xs: seq<T>, f: T -> seq<Event>)
    ensures FlatMap(xs[..|xs|], f) == FlatMap(xs, f) && FlatMap(xs[..0], f) == []
  {
    assert xs[..|xs|] == xs;
  }

  lemma HandledOne(h: Handlers, trace: seq<Event>, e: Event)
    ensures Handled(h, trace, [e]) == Outcome(trace + [e], Halts(h, trace + [e]))
    ensures Handled(h, trace, []) == Outcome(trace, false)
  {
    assert [e][..0] == [];
    assert Handled(h, trace, [e][..0]) == Outcome(trace, false);
  }

  // Only an error that the error handler returned halts the walk
  datatype Error = Nil | Plain | VisitorError

  // A configuration update that does not decode
  predicate BadUpdate(envelope: Dec<Payload>) {
    match envelope
    case Good(ConfigUpdate(update)) => update.Bad? || update.value.Bad?
    case _ => false
  }

  predicate HaltOnError(err: Error) {
    err.VisitorError?
  }

  class Visitor {
    const h: Handlers
    var trace: seq<Event>
    var lastCommittedBlock: uint64

    constructor (h: Handlers)
      ensures this.h == h && trace == []
    {
      this.h, trace, lastCommittedBlock := h, [], 0;
    }

    ghost predicate Did(start: seq<Event>, todo: seq<Event>, err: Error)
      reads this
    {
      Handled(h, start, todo) == Outcome(trace, HaltOnError(err))
    }

    // Calls the event's handler, or reports what did not decode, and asks the error handler about a failure
    method Emit(e: Event) returns (err: Error)
      modifies this`trace
      ensures Did(old(trace), [e], err) && err != Plain
    {
      HandledOne(h, trace, e);
      trace := trace + [e];
      if e.Corrupt? || h.fails(trace) {
        if h.errorFails(trace) {
          return VisitorError;
        }
      }
      return Nil;
    }

    method PublishReads(tx: TxId, ns: string, readSet: seq<Bytes>) returns (err: Error)
      modifies this`trace
      ensures Did(old(trace), FlatMap(readSet, EachRead(tx, ns)), err) && err != Plain
    {
      LoopDone(readSet, EachRead(tx, ns));
      for i := 0 to |readSet|
        invariant Did(old(trace), FlatMap(readSet[..i], EachRead(tx, ns)), Nil)
      {
        LoopStep(h, old(trace), readSet, i, EachRead(tx, ns), trace);
        err := Emit(OfRead(tx, ns, readSet[i]));
        if HaltOnError(err) {
          return;
        }
      }
      return Nil;
    }

    method PublishWrites(tx: TxId, ns: string, writeSet: seq<Write>) returns (err: Error)
      modifies this`trace
      ensures Did(old(trace), FlatMap(writeSet, EachWrite(tx, ns)), err) && err != Plain
    {
      LoopDone(writeSet, EachWrite(tx, ns));
      for i := 0 to |writeSet|
        invariant Did(old(trace), FlatMap(writeSet[..i], EachWrite(tx, ns)), Nil)
      {
        LoopStep(h, old(trace), writeSet, i, EachWrite(tx, ns), trace);
        err := Emit(OfWrite(tx, ns, writeSet[i]));
        if HaltOnError(err) {
          return;
        }
      }
      return Nil;
    }

    method PublishCollHashReads(tx: TxId, ns: string, coll: string, readSet: seq<Bytes>) returns (err: Error)
      modifies this`trace
      ensures Did(old(trace), FlatMap(readSet, EachHashRead(tx, ns, coll)), err) && err != Plain
    {
      LoopDone(readSet, EachHashRead(tx, ns, coll));
      for i := 0 to |readSet|
        invariant Did(old(trace), FlatMap(readSet[..i], EachHashRead(tx, ns, coll)), Nil)
      {
        LoopStep(h, old(trace), readSet, i, EachHashRead(tx, ns, coll), trace);
        err := Emit(OfHashRead(tx, ns, coll, readSet[i]));
        if HaltOnError(err) {
          return;
        }
      }
      return Nil;
    }

    method PublishCollHashWrites(tx: TxId, ns: string, coll: string, writeSet: seq<Bytes>) returns (err: Error)
      modifies this`trace
      ensures Did(old(trace), FlatMap(writeSet, EachHashWrite(tx, ns, coll)), err) && err != Plain
    {
      LoopDone(writeSet, EachHashWrite(tx, ns, coll));
      for i := 0 to |writeSet|
        invariant Did(old(trace), FlatMap(writeSet[..i], EachHashWrite(tx, ns, coll)), Nil)
      {
        LoopStep(h, old(trace), writeSet, i, EachHashWrite(tx, ns, coll), trace);
        err := Emit(OfHashWrite(tx, ns, coll, writeSet[i]));
        if HaltOnError(err) {
          return;
        }
      }
      return Nil;
    }

    method VisitCollHashRWSets(tx: TxId, ns: string, colls: seq<CollHash>) returns (err: Error)
      modifies this`trace
      ensures Did(old(trace), FlatMap(colls, EachColl(tx, ns)), err) && err != Plain
    {
      LoopDone(colls, EachColl(tx, ns));
      for i := 0 to |colls|
        invariant Did(old(trace), FlatMap(colls[..i], EachColl(tx, ns)), Nil)
      {
        var c := colls[i];
        LoopStep(h, old(trace), colls, i, EachColl(tx, ns), trace);
        HandledConcat(h, trace, FlatMap(c.readSet, EachHashRead(tx, ns, c.coll)),
            FlatMap(c.writeSet, EachHashWrite(tx, ns, c.coll)));
        err := PublishCollHashReads(tx, ns, c.coll, c.readSet);
        if HaltOnError(err) {
          return;
        }
        err := PublishCollHashWrites(tx, ns, c.coll, c.writeSet);
        if HaltOnError(err) {
          return;
        }
      }
      return Nil;
    }

    method PublishLSCCWrite(tx: TxId, writeSet: seq<Write>) returns (err: Error)
      modifies this`trace
      ensures Did(old(trace), Lscc(tx, writeSet), err) && err != Plain
    {
      if |writeSet| == 0 {
        return Nil;
      }
      var info := GetCCInfo(writeSet);
      if info.None? {
        err := Emit(CorruptTx(tx));
        return;
      }
      err := Emit(OfLscc(tx, info.value.id, info.value.data, info.value.config));
    }

    method VisitNsReadWriteSet(tx: TxId, s: NsRwSet) returns (err: Error)
      modifies this`trace
      ensures Did(old(trace), OfNs(tx, s), err) && err != Plain
    {
      ghost var first := FlatMap(s.readSet, EachRead(tx, s.ns));
      ghost var second := FlatMap(s.writeSet, EachWrite(tx, s.ns));
      ghost var third := FlatMap(s.colls, EachColl(tx, s.ns));
      HandledConcat(h, trace, first, Lscc(tx, s.writeSet));
      HandledConcat(h, trace, first, second + third);
      err := PublishReads(tx, s.ns, s.readSet);
      if HaltOnError(err) {
        return;
      }
      if s.ns == LSCC {
        err := PublishLSCCWrite(tx, s.writeSet);
        return;
      }
      HandledConcat(h, trace, second, third);
      err := PublishWrites(tx, s.ns, s.writeSet);
      if HaltOnError(err) {
        return;
      }
      err := VisitCollHashRWSets(tx, s.ns, s.colls);
    }

    method VisitTxReadWriteSet(tx: TxId, sets: seq<NsRwSet>) returns (err: Error)
      modifies this`trace
      ensures Did(old(trace), FlatMap(sets, EachNs(tx)), err) && err != Plain
    {
      LoopDone(sets, EachNs(tx));
      for i := 0 to |sets|
        invariant Did(old(trace), FlatMap(sets[..i], EachNs(tx)), Nil)
      {
        LoopStep(h, old(trace), sets, i, EachNs(tx), trace);
        err := VisitNsReadWriteSet(tx, sets[i]);
        if HaltOnError(err) {
          return;
        }
      }
      return Nil;
    }

    method VisitChaincodeActionResults(tx: TxId, results: Option<Dec<seq<NsRwSet>>>) returns (err: Error)
      modifies this`trace
      ensures Did(old(trace), OfResults(tx, results), err) && err != Plain
    {
      if results.None? {
        return Nil;
      }
      if results.value.Bad? {
        err := Emit(CorruptTx(tx));
        return;
      }
      err := VisitTxReadWriteSet(tx, results.value.value);
    }

    method VisitChaincodeActionEvents(tx: TxId, event: Option<Dec<Bytes>>) returns (err: Error)
      modifies this`trace
      ensures Did(old(trace), OfEvents(tx, event), err) && err != Plain
    {
      if event.None? {
        return Nil;
      }
      if event.value.Bad? {
        err := Emit(CorruptTx(tx));
        return;
      }
      err := Emit(OfCCEvent(tx, event.value.value));
    }

    method VisitChaincodeAction(tx: TxId, a: CCAction) returns (err: Error)
      modifies this`trace
      ensures Did(old(trace), OfResults(tx, a.results) + OfEvents(tx, a.event), err) && err != Plain
    {
      HandledConcat(h, trace, OfResults(tx, a.results), OfEvents(tx, a.event));
      err := VisitChaincodeActionResults(tx, a.results);
      if HaltOnError(err) {
        return;
      }
      err := VisitChaincodeActionEvents(tx, a.event);
    }

    // Each message holds the next; the first that does not decode is reported
    method VisitTXAction(tx: TxId, a: Dec<ActionPayload>) returns (err: Error)
      modifies this`trace
      ensures Did(old(trace), OfAction(tx, a), err) && err != Plain
    {
      if a.Bad? {
        err := Emit(CorruptTx(tx));
        return;
      }
      if !a.value.proposalDecodes {
        err := Emit(CorruptTx(tx));
        return;
      }
      if a.value.response.Bad? {
        err := Emit(CorruptTx(tx));
        return;
      }
      if a.value.response.value.extension.Bad? {
        err := Emit(CorruptTx(tx));
        return;
      }
      err := VisitChaincodeAction(tx, a.value.response.value.extension.value);
    }

    method VisitPvtCollWriteSet(tx: TxId, ns: string, c: PvtColl) returns (err: Error)
      modifies this`trace
      ensures Did(old(trace), OfPvtColl(tx, ns, c), err) && err != Plain
    {
      if c.rwset.Bad? {
        err := Emit(CorruptTx(tx));
        return;
      }
      var collNs, kv := ns + "$$p" + c.coll, c.rwset.value;
      HandledConcat(h, trace, FlatMap(kv.readSet, EachRead(tx, collNs)), FlatMap(kv.writeSet, EachWrite(tx, collNs)));
      err := PublishReads(tx, collNs, kv.readSet);
      if HaltOnError(err) {
        return;
      }
      err := PublishWrites(tx, collNs, kv.writeSet);
    }

    method VisitPvtNsWriteSet(tx: TxId, n: PvtNs) returns (err: Error)
      modifies this`trace
      ensures Did(old(trace), OfPvtNs(tx, n), err) && err != Plain
    {
      LoopDone(n.colls, EachPvtColl(tx, n.ns));
      for i := 0 to |n.colls|
        invariant Did(old(trace), FlatMap(n.colls[..i], EachPvtColl(tx, n.ns)), Nil)
      {
        LoopStep(h, old(trace), n.colls, i, EachPvtColl(tx, n.ns), trace);
        err := VisitPvtCollWriteSet(tx, n.ns, n.colls[i]);
        if HaltOnError(err) {
          return;
        }
      }
      return Nil;
    }

    method VisitPvtDataWriteSet(tx: TxId, pvt: seq<PvtNs>) returns (err: Error)
      modifies this`trace
      ensures Did(old(trace), FlatMap(pvt, EachPvtNs(tx)), err) && err != Plain
    {
      LoopDone(pvt, EachPvtNs(tx));
      for i := 0 to |pvt|
        invariant Did(old(trace), FlatMap(pvt[..i], EachPvtNs(tx)), Nil)
      {
        LoopStep(h, old(trace), pvt, i, EachPvtNs(tx), trace);
        err := VisitPvtNsWriteSet(tx, pvt[i]);
        if HaltOnError(err) {
          return;
        }
      }
      return Nil;
    }

    method VisitActions(tx: TxId, actions: seq<Dec<ActionPayload>>) returns (err: Error)
      modifies this`trace
      ensures Did(old(trace), FlatMap(actions, EachAction(tx)), err) && err != Plain
    {
      LoopDone(actions, EachAction(tx));
      for i := 0 to |actions|
        invariant Did(old(trace), FlatMap(actions[..i], EachAction(tx)), Nil)
      {
        LoopStep(h, old(trace), actions, i, EachAction(tx), trace);
        err := VisitTXAction(tx, actions[i]);
        if HaltOnError(err) {
          return;
        }
      }
      return Nil;
    }

    method VisitTx(tx: TxId, t: Tx, pvt: seq<PvtNs>) returns (err: Error)
      modifies this`trace
      ensures Did(old(trace), OfTx(tx, t, pvt), err) && err != Plain
    {
      HandledConcat(h, trace, FlatMap(t.actions, EachAction(tx)), FlatMap(pvt, EachPvtNs(tx)));
      err := VisitActions(tx, t.actions);
      if HaltOnError(err) {
        return;
      }
      err := VisitPvtDataWriteSet(tx, pvt);
    }

    // An update that does not decode is an error of its own, which does not halt
    method VisitConfigUpdate(envelope: Dec<Dec<Bytes>>) returns (err: Error)
      modifies this`trace
      ensures Did(old(trace), OfConfigUpdate(envelope), err)
      ensures !HaltOnError(err) ==> (err == Plain <==> envelope.Bad? || envelope.value.Bad?)
    {
      if envelope.Bad? {
        return Plain;
      }
      if envelope.value.Bad? {
        err := Emit(Corrupt(None, None));
        if !HaltOnError(err) {
          err := Plain;
        }
        return;
      }
      err := Emit(OfConfig(envelope.value.value));
    }

    method VisitEnvelope(b: Block, num: nat, envelope: Dec<Payload>) returns (err: Error)
      requires num < |b.envelopes| && b.envelopes[num] == Good(envelope)
      modifies this`trace
      ensures Did(old(trace), OfEnvelope(b, num), err)
      ensures !HaltOnError(err) ==> (err == Plain <==> BadUpdate(envelope))
    {
      match envelope {
        case Bad =>
          err := Emit(Corrupt(Some(num), None));
        case Good(Endorser(id, tx)) =>
          if num !in b.valid {
            return Nil;
          }
          if tx.Bad? {
            err := Emit(Corrupt(Some(num), Some(id)));
            return;
          }
          err := VisitTx(TxId(num, id), tx.value, PvtOf(b, num));
        case Good(ConfigUpdate(update)) =>
          err := VisitConfigUpdate(update);
        case Good(OtherType) =>
          err := Nil;
      }
    }

    /** The handlers see exactly what handling the flattened block event by event would show them. */
    method Visit(b: Block) returns (err: Error)
      modifies this
      ensures Did(old(trace), Flatten(b), err) && err != Plain
      ensures Walked(h, old(trace), Flatten(b), Outcome(trace, HaltOnError(err)))
      ensures lastCommittedBlock == b.number
    {
      lastCommittedBlock := b.number;
      HandledExactly(h, trace, Flatten(b));
      HandledConcat(h, trace, [OfBlock(b.number)], FlatMap(Indices(|b.envelopes|), EachEnvelope(b)));
      err := Emit(OfBlock(b.number));
      if HaltOnError(err) {
        return;
      }
      err := VisitEnvelopes(b);
    }

    method VisitEnvelopes(b: Block) returns (err: Error)
      modifies this`trace
      ensures Did(old(trace), FlatMap(Indices(|b.envelopes|), EachEnvelope(b)), err) && err != Plain
    {
      ghost var nums := Indices(|b.envelopes|);
      LoopDone(nums, EachEnvelope(b));
      for i := 0 to |b.envelopes|
        invariant Did(old(trace), FlatMap(nums[..i], EachEnvelope(b)), Nil)
      {
        LoopStep(h, old(trace), nums, i, EachEnvelope(b), trace);
        match b.envelopes[i] {
          case Bad =>
            err := Emit(Corrupt(None, None));
          case Good(envelope) =>
            err := VisitEnvelope(b, i, envelope);
        }
        if HaltOnError(err) {
          return;
        }
      }
      return Nil;
    }
  }

  method GetCCInfo(writeSet: seq<Write>) returns (r: Option<CCInfo>)
    ensures r == CCInfoOf(writeSet)
  {
    var info := CCInfo("", None, None);
    for i := 0 to |writeSet|
      invariant CCInfoOf(writeSet[..i]) == Some(info)
    {
      var w := writeSet[i];
      assert writeSet[..i + 1][..i] == writeSet[..i];
      if IsConfigKey(w.key) {
        if w.asConfig.Bad? {
          NoInfoAfter(writeSet, i + 1);
          return None;
        }
        info := info.(config := Some(w.asConfig.value));
      } else {
        if w.asChaincode.Bad? {
          NoInfoAfter(writeSet, i + 1);
          return None;
        }
        info := info.(id := w.key, data := Some(w.asChaincode.value));
      }
    }
    assert writeSet[..|writeSet|] == writeSet;
    return Some(info);
  }

  lemma {:induction false} NoInfoAfter(writeSet: seq<Write>, n: nat)
    requires n <= |writeSet| && CCInfoOf(writeSet[..n]).None?
    ensures CCInfoOf(writeSet).None?
  {
    if n == |writeSet| {
      assert writeSet[..n] == writeSet;
    } else {
      assert writeSet[..|writeSet| - 1][..n] == writeSet[..n];
      NoInfoAfter(writeSet[..|writeSet| - 1], n);
    }
  }
}
