/**
  The private data store against a history that forgets nothing: what the blocks and the reconciliations brought, with
  no documents, no expiry entries and no purges. Every answer of the store is the unexpired part of that history.
 */
module StoreHistory {
  import opened PvtTypes
  import opened Assembler
  import opened StoreEntries
  import opened PvtStore
  import opened Reconcile
  import opened MissingInfo
  import opened StoreRuns
  import opened StoreLaws
  import CombinedStore

  datatype History = History(data: map<DataKey, CollWrites>, prio: MissingBits, deprio: MissingBits, inelg: MissingBits)

  const NOTHING := History(map[], {}, {}, {})

  function MissingIn(blk: uint64, missing: TxMissing, eligible: bool): MissingBits {
    set tx, c | tx in missing && c in missing[tx] && c.eligible == eligible :: (MissingKey(c.ns, c.coll, blk), tx)
  }

  function DataKeyOf(x: (MissingKey, uint64)): DataKey {
    DataKey(x.0.ns, x.0.coll, x.0.blk, x.1)
  }

  predicate HasEntry(bits: MissingBits, k: MissingKey) {
    exists x :: x in bits && x.0 == k
  }

  function Arrived(btl: BtlPolicy, docs: map<uint64, Doc>, blocks: Blocks): map<DataKey, CollWrites> {
    map k | k in (set b, e | b in blocks && e in DataEntries(b, blocks[b]) :: e.key) &&
            Arrives(btl, docs, blocks, k) && k in MapOf(DataEntries(k.blk, blocks[k.blk])) ::
      MapOf(DataEntries(k.blk, blocks[k.blk]))[k]
  }

  // What an operation adds; the documents say only whether offered data is taken
  ghost function Told(btl: BtlPolicy, docs: map<uint64, Doc>, h: History, op: Op): History {
    match op
    case Commit(blk, pvt, missing) =>
      h.(data := h.data + MapOf(DataEntries(blk, pvt)),
         prio := h.prio + MissingIn(blk, missing, true), inelg := h.inelg + MissingIn(blk, missing, false))
    case CommitOld(blocks, unreconciled) =>
      h.(data := h.data + Arrived(btl, docs, blocks),
         prio := (set x | x in h.prio && x !in unreconciled && !Arrives(btl, docs, blocks, DataKeyOf(x))),
         deprio := (set x | x in h.deprio && (Arrives(btl, docs, blocks, DataKeyOf(x)) ==> x in h.prio)) +
                   (set x | x in unreconciled && HasEntry(h.prio, x.0)))
    case Convert(events) =>
      h.(prio := (set x | x in h.prio && !(MadeEligible(events, x.0) && HasEntry(h.inelg, x.0))) +
                 (set x | x in h.inelg && MadeEligible(events, x.0)),
         inelg := (set x | x in h.inelg && !MadeEligible(events, x.0)))
    case Purge(_) => h
    case Reopen => h
  }

  ghost function HistoryAfter(btl: BtlPolicy, s: State, h: History, ops: seq<Op>): History
    decreases |ops|
  {
    if ops == [] || !Allowed(btl, s, ops[0]) then h
    else HistoryAfter(btl, Apply(btl, s, ops[0]), Told(btl, s.docs, h, ops[0]), ops[1..])
  }

  ghost function HistoryOf(btl: BtlPolicy, ops: seq<Op>): History {
    HistoryAfter(btl, Initial(), NOTHING, ops)
  }

  // ----- Agreement on everything that has not expired

  predicate SameData(h: map<DataKey, CollWrites>, s: map<DataKey, CollWrites>, k: DataKey) {
    (k in h <==> k in s) && (k in h ==> h[k] == s[k])
  }

  predicate SameBit(h: History, s: State, x: (MissingKey, uint64)) {
    && (x in h.prio <==> x in Bits(s.prio)) && (x in h.deprio <==> x in Bits(s.deprio))
    && (x in h.inelg <==> x in Bits(s.inelg))
  }

  ghost predicate DataAgrees(btl: BtlPolicy, h: History, s: State) {
    forall k: DataKey :: Unexpired(btl, k.ns, k.coll, k.blk, s.last) ==>
      SameData(h.data, CombinedStore.StoredData(s.docs, k.blk), k)
  }

  ghost predicate BitsAgree(btl: BtlPolicy, h: History, s: State) {
    forall x: (MissingKey, uint64) :: Unexpired(btl, x.0.ns, x.0.coll, x.0.blk, s.last) ==> SameBit(h, s, x)
  }

  lemma LastUnique(es: seq<DataEntry>, k: DataKey, v: CollWrites, v': CollWrites)
    requires LastWritten(es, k, v) && LastWritten(es, k, v')
    ensures v == v'
  {
    var i :| 0 <= i < |es| && LastAt(es, i, k, v);
    var j :| 0 <= j < |es| && LastAt(es, j, k, v');
    assert i == j;
  }

  lemma ArrivedIff(btl: BtlPolicy, docs: map<uint64, Doc>, blocks: Blocks, k: DataKey)
    ensures k in Arrived(btl, docs, blocks) <==> Arrives(btl, docs, blocks, k)
    ensures k in Arrived(btl, docs, blocks) ==>
              LastWritten(DataEntries(k.blk, blocks[k.blk]), k, Arrived(btl, docs, blocks)[k])
  {
    if Arrives(btl, docs, blocks, k) {
      var es := DataEntries(k.blk, blocks[k.blk]);
      MapOfLast(es, k);
      var i :| 0 <= i < |es| && es[i].key == k;
      assert es[i] in es;
    }
  }

  lemma CommitAgrees(btl: BtlPolicy, h: History, s: State, blk: uint64, pvt: seq<TxPvtData>, missing: TxMissing,
                     k: DataKey)
    requires Sound(btl, s) && DataAgrees(btl, h, s) && Allowed(btl, s, Commit(blk, pvt, missing))
    requires Unexpired(btl, k.ns, k.coll, k.blk, blk)
    ensures SameData(Told(btl, s.docs, h, Commit(blk, pvt, missing)).data,
                     CombinedStore.StoredData(Apply(btl, s, Commit(blk, pvt, missing)).docs, k.blk), k)
  {
    var es := DataEntries(blk, pvt);
    CommittedDataIff(btl, s, blk, pvt, missing, k);
    MapOfLast(es, k);
    assert SameData(h.data, CombinedStore.StoredData(s.docs, k.blk), k);
    var data := CombinedStore.StoredData(Apply(btl, s, Commit(blk, pvt, missing)).docs, blk);
    if k.blk == blk {
      NotYetStored(btl, s, blk);
      if k in data {
        LastUnique(es, k, data[k], MapOf(es)[k]);
      }
    } else if WritesKey(es, k) {
      EntriesAreOfBlock(blk, pvt);
    }
  }

  lemma ReconcileAgrees(btl: BtlPolicy, h: History, s: State, blocks: Blocks, unreconciled: MissingBits, k: DataKey)
    requires Sound(btl, s) && DataAgrees(btl, h, s) && AllKnown(btl, blocks)
    requires Unexpired(btl, k.ns, k.coll, k.blk, s.last)
    ensures SameData(Told(btl, s.docs, h, CommitOld(blocks, unreconciled)).data,
                     CombinedStore.StoredData(Reconciled(btl, s, blocks, unreconciled).docs, k.blk), k)
  {
    ReconciledDataIff(btl, s, blocks, unreconciled, k);
    ArrivedIff(btl, s.docs, blocks, k);
    assert SameData(h.data, CombinedStore.StoredData(s.docs, k.blk), k);
    if Arrives(btl, s.docs, blocks, k) {
      var data := CombinedStore.StoredData(Reconciled(btl, s, blocks, unreconciled).docs, k.blk);
      LastUnique(DataEntries(k.blk, blocks[k.blk]), k, data[k], Arrived(btl, s.docs, blocks)[k]);
    }
  }

  lemma StepAgreesOnData(btl: BtlPolicy, h: History, s: State, op: Op)
    requires Sound(btl, s) && DataAgrees(btl, h, s) && Allowed(btl, s, op)
    ensures DataAgrees(btl, Told(btl, s.docs, h, op), Apply(btl, s, op))
  {
    var h', s' := Told(btl, s.docs, h, op), Apply(btl, s, op);
    forall k: DataKey | Unexpired(btl, k.ns, k.coll, k.blk, s'.last)
      ensures SameData(h'.data, CombinedStore.StoredData(s'.docs, k.blk), k)
    {
      match op
      case Commit(blk, pvt, missing) =>
        CommitAgrees(btl, h, s, blk, pvt, missing, k);
      case Purge(max) =>
        PurgeKeepsData(btl, s, max, k);
      case CommitOld(blocks, unreconciled) =>
        ReconcileAgrees(btl, h, s, blocks, unreconciled, k);
      case Convert(_) =>
      case Reopen =>
        ReopenInvisibleIff(btl, s);
    }
  }

  // A live entry of the history is an entry of the store, which holds no empty bitmap
  lemma EntryAgrees(btl: BtlPolicy, h: History, s: State, k: MissingKey)
    requires IndexInv(btl, s) && BitsAgree(btl, h, s) && Unexpired(btl, k.ns, k.coll, k.blk, s.last)
    ensures HasEntry(h.prio, k) <==> k in s.prio
    ensures HasEntry(h.inelg, k) <==> k in s.inelg
  {
    if k in s.prio {
      var tx :| tx in s.prio[k];
      assert SameBit(h, s, (k, tx)) && (k, tx).0 == k;
    }
    if k in s.inelg {
      var tx :| tx in s.inelg[k];
      assert SameBit(h, s, (k, tx)) && (k, tx).0 == k;
    }
    forall x | (x in h.prio || x in h.inelg) && x.0 == k ensures SameBit(h, s, x) {
    }
  }

  lemma CommitAgreesOnBit(btl: BtlPolicy, h: History, s: State, blk: uint64, pvt: seq<TxPvtData>, missing: TxMissing,
                          x: (MissingKey, uint64))
    requires Sound(btl, s) && IndexInv(btl, s) && Allowed(btl, s, Commit(blk, pvt, missing)) && SameBit(h, s, x)
    ensures SameBit(Told(btl, s.docs, h, Commit(blk, pvt, missing)), Apply(btl, s, Commit(blk, pvt, missing)), x)
  {
    CommittedBitIff(btl, s, blk, pvt, missing, x.0.ns, x.0.coll, x.0.blk, x.1);
    MissingInIff(blk, missing, true, x);
    MissingInIff(blk, missing, false, x);
    assert x == (MissingKey(x.0.ns, x.0.coll, x.0.blk), x.1);
  }

  lemma MissingInIff(blk: uint64, missing: TxMissing, eligible: bool, x: (MissingKey, uint64))
    ensures x in MissingIn(blk, missing, eligible) <==>
            x.0.blk == blk && x.1 in missing && MissingColl(x.0.ns, x.0.coll, eligible) in missing[x.1]
  {
    var c := MissingColl(x.0.ns, x.0.coll, eligible);
    if x.0.blk == blk && x.1 in missing && c in missing[x.1] {
      assert x == (MissingKey(c.ns, c.coll, blk), x.1);
    }
  }

  lemma ReconcileAgreesOnBit(btl: BtlPolicy, h: History, s: State, blocks: Blocks, unreconciled: MissingBits,
                             x: (MissingKey, uint64))
    requires AllKnown(btl, blocks) && SameBit(h, s, x) && (HasEntry(h.prio, x.0) <==> x.0 in s.prio)
    ensures SameBit(Told(btl, s.docs, h, CommitOld(blocks, unreconciled)), Reconciled(btl, s, blocks, unreconciled), x)
  {
    ReconciledBitIff(btl, s, blocks, unreconciled, DataKeyOf(x));
    assert x == (MissingKey(x.0.ns, x.0.coll, x.0.blk), x.1);
  }

  lemma ConvertAgreesOnBit(btl: BtlPolicy, h: History, s: State, events: EventMap, x: (MissingKey, uint64))
    requires SameBit(h, s, x) && (HasEntry(h.inelg, x.0) <==> x.0 in s.inelg)
    ensures SameBit(Told(btl, s.docs, h, Convert(events)), ConvertedState(s, events), x)
  {
    ConvertedBitIff(s, events, x.0, x.1);
    assert x == (x.0, x.1);
  }

  lemma PurgeAgreesOnBit(btl: BtlPolicy, h: History, s: State, max: uint64, x: (MissingKey, uint64))
    requires Sound(btl, s) && SameBit(h, s, x) && Unexpired(btl, x.0.ns, x.0.coll, x.0.blk, max)
    ensures SameBit(h, Purged(s, max), x)
  {
    PurgeKeepsEntry(btl, s, max, x.0);
  }

  lemma StepAgreesOnBits(btl: BtlPolicy, h: History, s: State, op: Op)
    requires Sound(btl, s) && IndexInv(btl, s) && BitsAgree(btl, h, s) && Allowed(btl, s, op)
    ensures BitsAgree(btl, Told(btl, s.docs, h, op), Apply(btl, s, op))
  {
    var h', s' := Told(btl, s.docs, h, op), Apply(btl, s, op);
    forall x: (MissingKey, uint64) | Unexpired(btl, x.0.ns, x.0.coll, x.0.blk, s'.last) ensures SameBit(h', s', x) {
      assert s.last <= s'.last;
      assert SameBit(h, s, x);
      EntryAgrees(btl, h, s, x.0);
      match op
      case Commit(blk, pvt, missing) =>
        CommitAgreesOnBit(btl, h, s, blk, pvt, missing, x);
      case Purge(max) =>
        PurgeAgreesOnBit(btl, h, s, max, x);
      case CommitOld(blocks, unreconciled) =>
        ReconcileAgreesOnBit(btl, h, s, blocks, unreconciled, x);
      case Convert(events) =>
        ConvertAgreesOnBit(btl, h, s, events, x);
      case Reopen =>
        ReopenInvisibleIff(btl, s);
    }
  }

  /** Every run keeps the store and its history agreed on all that has not expired. */
  lemma {:induction false} RunAgrees(btl: BtlPolicy, h: History, s: State, ops: seq<Op>, s': State)
    requires Sound(btl, s) && IndexInv(btl, s) && DataAgrees(btl, h, s) && BitsAgree(btl, h, s)
    requires Run(btl, s, ops, s')
    ensures DataAgrees(btl, HistoryAfter(btl, s, h, ops), s') && BitsAgree(btl, HistoryAfter(btl, s, h, ops), s')
    decreases |ops|
  {
    if ops != [] {
      var op := ops[0];
      StepKeepsSound(btl, s, op);
      StepKeepsIndex(btl, s, op);
      StepAgreesOnData(btl, h, s, op);
      StepAgreesOnBits(btl, h, s, op);
      RunAgrees(btl, Told(btl, s.docs, h, op), Apply(btl, s, op), ops[1..], s');
    }
  }

  lemma ReachedAgrees(btl: BtlPolicy, ops: seq<Op>, s: State)
    requires Run(btl, Initial(), ops, s)
    ensures Sound(btl, s) && IndexInv(btl, s)
    ensures DataAgrees(btl, HistoryOf(btl, ops), s) && BitsAgree(btl, HistoryOf(btl, ops), s)
  {
    RunKeepsSound(btl, Initial(), ops, s);
    RunKeepsIndex(btl, Initial(), ops, s);
    RunAgrees(btl, NOTHING, Initial(), ops, s);
  }

  // ----- What callers see

  /**
    In every reachable state a read returns exactly what the block's commit and the reconciliations brought for it,
    without what has expired and without the collections the filter does not name.
   */
  lemma ReadsTellHistory(btl: BtlPolicy, ops: seq<Op>, s: State, blk: uint64, filter: Filter, e: DataEntry)
    requires Run(btl, Initial(), ops, s)
    ensures Read(s, btl, blk, filter).Ok? <==> !s.empty && blk <= s.last
    ensures var h := HistoryOf(btl, ops).data;
            Read(s, btl, blk, filter).Ok? ==>
              (e in CombinedStore.Contents(blk, Read(s, btl, blk, filter).value) <==>
               && e.key.blk == blk && e.key in h && h[e.key] == e.value
               && Unexpired(btl, e.key.ns, e.key.coll, blk, s.last)
               && (filter.Some? ==> NsColl(e.key.ns, e.key.coll) in filter.value))
  {
    ReachedAgrees(btl, ops, s);
    ReadShowsIff(btl, s, blk, filter, e);
    if Unexpired(btl, e.key.ns, e.key.coll, e.key.blk, s.last) {
      assert SameData(HistoryOf(btl, ops).data, CombinedStore.StoredData(s.docs, e.key.blk), e.key);
    }
  }

  /** In every reachable state the ineligible group holds exactly the unexpired ineligible bits of the history. */
  lemma IneligibleTellsHistory(btl: BtlPolicy, ops: seq<Op>, s: State, k: MissingKey, tx: uint64)
    requires Run(btl, Initial(), ops, s) && Unexpired(btl, k.ns, k.coll, k.blk, s.last)
    ensures k in s.inelg && tx in s.inelg[k] <==> (k, tx) in HistoryOf(btl, ops).inelg
  {
    ReachedAgrees(btl, ops, s);
    assert Unexpired(btl, (k, tx).0.ns, (k, tx).0.coll, (k, tx).0.blk, s.last);
    assert SameBit(HistoryOf(btl, ops), s, (k, tx));
  }

  // The newer blocks of which something unexpired is missing
  function NewerMissing(btl: BtlPolicy, bits: MissingBits, last: uint64, blk: uint64): set<uint64> {
    set x | x in bits && blk < x.0.blk <= last && Unexpired(btl, x.0.ns, x.0.coll, x.0.blk, last) :: x.0.blk
  }

  lemma ReportTells(btl: BtlPolicy, m: MissingMap, bits: MissingBits, last: uint64, max: int, k: MissingKey, tx: uint64)
    requires NoEmptyBitmap(m) && forall k :: k in m ==> ExpiringBlk(btl, k).Some?
    requires forall x: (MissingKey, uint64) ::
               Unexpired(btl, x.0.ns, x.0.coll, x.0.blk, last) ==> (x in bits <==> x in Bits(m))
    ensures Report(btl, m, last, max).Ok?
    ensures (k, tx) in Report(btl, m, last, max).value <==>
            && (k, tx) in bits && 0 < k.blk <= last && Unexpired(btl, k.ns, k.coll, k.blk, last)
            && |NewerMissing(btl, bits, last, k.blk)| < max
  {
    PurgeInvisibleToReport(btl, m, {}, last, max);
    ReportedIff(btl, m, last, max, k, tx);
    forall b ensures b in NewerMissing(btl, bits, last, k.blk) <==> b in NewerBlocks(btl, m, last, k.blk) {
      if b in NewerBlocks(btl, m, last, k.blk) {
        var k' :| k' in m && k.blk < k'.blk <= last && Unexpired(btl, k'.ns, k'.coll, k'.blk, last) && k'.blk == b;
        var tx' :| tx' in m[k'];
        assert (k', tx') in Bits(m) && (k', tx') in bits;
      }
      if b in NewerMissing(btl, bits, last, k.blk) {
        var x :| x in bits && k.blk < x.0.blk <= last && Unexpired(btl, x.0.ns, x.0.coll, x.0.blk, last) &&
            x.0.blk == b;
        assert x.0 in m;
      }
    }
    assert NewerMissing(btl, bits, last, k.blk) == NewerBlocks(btl, m, last, k.blk);
    assert (k, tx) in Bits(m) <==> k in m && tx in m[k];
  }

  /**
    In every reachable state both reports succeed, and they list exactly the unexpired missing bits of the history
    that have fewer than max blocks with such bits after their own.
   */
  lemma ReportsTellHistory(btl: BtlPolicy, ops: seq<Op>, s: State, max: int, k: MissingKey, tx: uint64)
    requires Run(btl, Initial(), ops, s)
    ensures Report(btl, s.prio, s.last, max).Ok? && Report(btl, s.deprio, s.last, max).Ok?
    ensures var h := HistoryOf(btl, ops);
            && ((k, tx) in Report(btl, s.prio, s.last, max).value <==>
                && (k, tx) in h.prio && 0 < k.blk <= s.last && Unexpired(btl, k.ns, k.coll, k.blk, s.last)
                && |NewerMissing(btl, h.prio, s.last, k.blk)| < max)
            && ((k, tx) in Report(btl, s.deprio, s.last, max).value <==>
                && (k, tx) in h.deprio && 0 < k.blk <= s.last && Unexpired(btl, k.ns, k.coll, k.blk, s.last)
                && |NewerMissing(btl, h.deprio, s.last, k.blk)| < max)
  {
    var h := HistoryOf(btl, ops);
    ReachedAgrees(btl, ops, s);
    forall x: (MissingKey, uint64) | Unexpired(btl, x.0.ns, x.0.coll, x.0.blk, s.last)
      ensures (x in h.prio <==> x in Bits(s.prio)) && (x in h.deprio <==> x in Bits(s.deprio))
    {
      assert SameBit(h, s, x);
    }
    assert forall k :: k in s.prio || k in s.deprio ==> k in Keys(s);
    ReportTells(btl, s.prio, h.prio, s.last, max, k, tx);
    ReportTells(btl, s.deprio, h.deprio, s.last, max, k, tx);
  }
}
