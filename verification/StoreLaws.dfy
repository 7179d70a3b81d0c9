/** What each operation of the private data store does to one entry, in terms of the block's own data. */
module StoreLaws {
  import opened PvtTypes
  import opened Assembler
  import opened StoreEntries
  import opened PvtStore
  import opened Reconcile
  import opened MissingInfo
  import opened StoreRuns
  import CombinedStore
  import Eligibility

  // The collection's data of the block has not expired when last is the last committed block
  predicate Unexpired(btl: BtlPolicy, ns: Name, coll: Name, blk: uint64, last: uint64) {
    btl(ns, coll, blk).Some? && last < btl(ns, coll, blk).value
  }

  // es[i] is the last entry of its key
  predicate LastAt(es: seq<DataEntry>, i: nat, k: DataKey, v: CollWrites) {
    i < |es| && es[i] == DataEntry(k, v) && forall j :: i < j < |es| ==> es[j].key != k
  }

  predicate LastWritten(es: seq<DataEntry>, k: DataKey, v: CollWrites) {
    exists i :: 0 <= i < |es| && LastAt(es, i, k, v)
  }

  predicate WritesKey(es: seq<DataEntry>, k: DataKey) {
    exists i :: 0 <= i < |es| && es[i].key == k
  }

  // ----- The entries of a block

  /** A block has an entry for a collection exactly when one of its transactions writes it, and with that value. */
  lemma EntryIff(blk: uint64, pvt: seq<TxPvtData>, e: DataEntry)
    ensures e in DataEntries(blk, pvt) <==>
            exists t, n, c :: t in pvt && n in t.nss && c in n.colls &&
                              e == DataEntry(DataKey(n.ns, c.coll, blk, t.tx), c)
  {
    if e in DataEntries(blk, pvt) {
      var t := TxOf(blk, pvt, e);
      var n := NsOf(blk, t.tx, t.nss, e);
      var c := CollOf(blk, t.tx, n.ns, n.colls, e);
    }
    forall t, n, c | t in pvt && n in t.nss && c in n.colls
      ensures DataEntry(DataKey(n.ns, c.coll, blk, t.tx), c) in DataEntries(blk, pvt)
    {
      CollIn(blk, t.tx, n.ns, n.colls, c);
      NsIn(blk, t.tx, t.nss, n, DataEntry(DataKey(n.ns, c.coll, blk, t.tx), c));
      TxIn(blk, pvt, t, DataEntry(DataKey(n.ns, c.coll, blk, t.tx), c));
    }
  }

  lemma {:induction false} TxOf(blk: uint64, pvt: seq<TxPvtData>, e: DataEntry) returns (t: TxPvtData)
    requires e in DataEntries(blk, pvt)
    ensures t in pvt && e in NsEntries(blk, t.tx, t.nss)
  {
    if e in NsEntries(blk, pvt[0].tx, pvt[0].nss) {
      t := pvt[0];
    } else {
      t := TxOf(blk, pvt[1..], e);
    }
  }

  lemma {:induction false} NsOf(blk: uint64, tx: uint64, nss: seq<NsWrites>, e: DataEntry) returns (n: NsWrites)
    requires e in NsEntries(blk, tx, nss)
    ensures n in nss && e in CollEntries(blk, tx, n.ns, n.colls)
  {
    if e in CollEntries(blk, tx, nss[0].ns, nss[0].colls) {
      n := nss[0];
    } else {
      n := NsOf(blk, tx, nss[1..], e);
    }
  }

  lemma {:induction false} CollOf(blk: uint64, tx: uint64, ns: Name, colls: seq<CollWrites>, e: DataEntry)
    returns (c: CollWrites)
    requires e in CollEntries(blk, tx, ns, colls)
    ensures c in colls && e == DataEntry(DataKey(ns, c.coll, blk, tx), c)
  {
    if e == DataEntry(DataKey(ns, colls[0].coll, blk, tx), colls[0]) {
      c := colls[0];
    } else {
      c := CollOf(blk, tx, ns, colls[1..], e);
    }
  }

  lemma {:induction false} CollIn(blk: uint64, tx: uint64, ns: Name, colls: seq<CollWrites>, c: CollWrites)
    requires c in colls
    ensures DataEntry(DataKey(ns, c.coll, blk, tx), c) in CollEntries(blk, tx, ns, colls)
  {
    if c != colls[0] {
      CollIn(blk, tx, ns, colls[1..], c);
    }
  }

  lemma {:induction false} NsIn(blk: uint64, tx: uint64, nss: seq<NsWrites>, n: NsWrites, e: DataEntry)
    requires n in nss && e in CollEntries(blk, tx, n.ns, n.colls)
    ensures e in NsEntries(blk, tx, nss)
  {
    if n != nss[0] {
      NsIn(blk, tx, nss[1..], n, e);
    }
  }

  lemma {:induction false} TxIn(blk: uint64, pvt: seq<TxPvtData>, t: TxPvtData, e: DataEntry)
    requires t in pvt && e in NsEntries(blk, t.tx, t.nss)
    ensures e in DataEntries(blk, pvt)
  {
    if t != pvt[0] {
      TxIn(blk, pvt[1..], t, e);
    }
  }

  /** A document keeps the last write of a key. */
  lemma {:induction false} MapOfLast(es: seq<DataEntry>, k: DataKey)
    ensures k in MapOf(es) <==> WritesKey(es, k)
    ensures k in MapOf(es) ==> LastWritten(es, k, MapOf(es)[k])
  {
    MapOfKeys(es);
    if es != [] {
      var last := |es| - 1;
      MapOfLast(es[..last], k);
      if es[last].key == k {
        assert LastAt(es, last, k, es[last].value);
      } else if k in MapOf(es) {
        var i :| 0 <= i < last && LastAt(es[..last], i, k, MapOf(es[..last])[k]);
        assert LastAt(es, i, k, MapOf(es)[k]);
      }
    }
  }

  // ----- Reading

  /** A read shows exactly the stored entries that have not expired and that the filter names. */
  lemma ReadShowsIff(btl: BtlPolicy, s: State, blk: uint64, filter: Filter, e: DataEntry)
    requires Sound(btl, s)
    ensures Read(s, btl, blk, filter).Ok? <==> !s.empty && blk <= s.last
    ensures Read(s, btl, blk, filter).Ok? ==>
              (e in CombinedStore.Contents(blk, Read(s, btl, blk, filter).value) <==>
               && blk in s.docs && e.key in s.docs[blk].data && s.docs[blk].data[e.key] == e.value
               && Unexpired(btl, e.key.ns, e.key.coll, e.key.blk, s.last)
               && (filter.Some? ==> NsColl(e.key.ns, e.key.coll) in filter.value))
  {
    if !s.empty && blk <= s.last {
      CombinedStore.ReadContents(btl, s, blk, filter);
    }
  }

  /** A filtered read is the unfiltered one without the collections the filter does not name. */
  lemma FilterRestricts(btl: BtlPolicy, s: State, blk: uint64, names: set<NsColl>)
    requires Sound(btl, s) && Read(s, btl, blk, None).Ok?
    ensures Read(s, btl, blk, Some(names)).Ok?
    ensures CombinedStore.Contents(blk, Read(s, btl, blk, Some(names)).value) ==
            set e | e in CombinedStore.Contents(blk, Read(s, btl, blk, None).value)
                    && NsColl(e.key.ns, e.key.coll) in names
  {
    forall e: DataEntry
      ensures e in CombinedStore.Contents(blk, Read(s, btl, blk, Some(names)).value) <==>
              e in CombinedStore.Contents(blk, Read(s, btl, blk, None).value) && NsColl(e.key.ns, e.key.coll) in names
    {
      ReadShowsIff(btl, s, blk, Some(names), e);
      ReadShowsIff(btl, s, blk, None, e);
    }
  }

  // ----- Commit

  /** A commit adds exactly the bits of the block's missing collections, each to the group of its eligibility. */
  lemma CommittedBitIff(btl: BtlPolicy, s: State, blk: uint64, pvt: seq<TxPvtData>, missing: TxMissing,
                        ns: Name, coll: Name, b: uint64, tx: uint64)
    requires Sound(btl, s) && IndexInv(btl, s) && Allowed(btl, s, Commit(blk, pvt, missing))
    ensures var s', x := Apply(btl, s, Commit(blk, pvt, missing)), (MissingKey(ns, coll, b), tx);
            && (x in Bits(s'.prio) <==>
                x in Bits(s.prio) || (b == blk && tx in missing && MissingColl(ns, coll, true) in missing[tx]))
            && (x in Bits(s'.inelg) <==>
                x in Bits(s.inelg) || (b == blk && tx in missing && MissingColl(ns, coll, false) in missing[tx]))
            && s'.deprio == s.deprio
  {
    var entries := EntriesOfBlock(btl, blk, pvt, missing).value;
    PreparedSound(btl, blk, pvt, missing);
    NewBitIff(blk, missing, true, ns, coll, b, tx);
    NewBitIff(blk, missing, false, ns, coll, b, tx);
    forall k | k in Keys(s) ensures k !in entries.elg && k !in entries.inelg {
    }
    UnionBits(s.prio, entries.elg);
    UnionBits(s.inelg, entries.inelg);
  }

  lemma NewBitIff(blk: uint64, missing: TxMissing, eligible: bool, ns: Name, coll: Name, b: uint64, tx: uint64)
    ensures (MissingKey(ns, coll, b), tx) in Bits(MissingEntries(blk, missing, eligible)) <==>
            b == blk && tx in missing && MissingColl(ns, coll, eligible) in missing[tx]
  {
    var k, c := MissingKey(ns, coll, b), MissingColl(ns, coll, eligible);
    MissingEntriesBits(blk, missing, eligible);
    if b == blk && tx in missing && c in missing[tx] {
      assert (k, tx) == (KeyOf(blk, c), tx);
    }
  }

  /** A committed block stores the last write of each of its keys, and no other block's data changes. */
  lemma CommittedDataIff(btl: BtlPolicy, s: State, blk: uint64, pvt: seq<TxPvtData>, missing: TxMissing, k: DataKey)
    requires Sound(btl, s) && Allowed(btl, s, Commit(blk, pvt, missing))
    ensures var s' := Apply(btl, s, Commit(blk, pvt, missing));
            && (k.blk != blk ==> CombinedStore.StoredData(s'.docs, k.blk) == CombinedStore.StoredData(s.docs, k.blk))
            && (k in CombinedStore.StoredData(s'.docs, blk) <==> WritesKey(DataEntries(blk, pvt), k))
            && (k in CombinedStore.StoredData(s'.docs, blk) ==>
                LastWritten(DataEntries(blk, pvt), k, CombinedStore.StoredData(s'.docs, blk)[k]))
            && s'.last == blk && !s'.empty
  {
    var entries := EntriesOfBlock(btl, blk, pvt, missing).value;
    NotYetStored(btl, s, blk);
    CommittedData(s, blk, entries);
    MapOfLast(entries.data, k);
  }

  lemma CommittedData(s: State, blk: uint64, entries: Entries)
    requires blk !in s.docs
    ensures var docs := Committed(s, blk, entries).docs;
            && CombinedStore.StoredData(docs, blk) == MapOf(entries.data)
            && forall b :: b != blk ==> CombinedStore.StoredData(docs, b) == CombinedStore.StoredData(s.docs, b)
  {
  }

  // ----- Purge

  /** A purge keeps every entry of all three groups, with its bitmap, until its expiring block is purged. */
  lemma PurgeKeepsEntry(btl: BtlPolicy, s: State, max: uint64, k: MissingKey)
    requires Sound(btl, s) && Unexpired(btl, k.ns, k.coll, k.blk, max)
    ensures var s' := Purged(s, max);
            && (k in s.prio <==> k in s'.prio) && (k in s.prio ==> s'.prio[k] == s.prio[k])
            && (k in s.deprio <==> k in s'.deprio) && (k in s.deprio ==> s'.deprio[k] == s.deprio[k])
            && (k in s.inelg <==> k in s'.inelg) && (k in s.inelg ==> s'.inelg[k] == s.inelg[k])
  {
    if k in SelectedDead(s.docs, max) {
      PurgeDeletesOnlyExpiredMissing(btl, s, max, k);
    }
  }

  /** A purge keeps all data, with its value, until its expiring block is purged. */
  lemma PurgeKeepsData(btl: BtlPolicy, s: State, max: uint64, k: DataKey)
    requires Sound(btl, s) && Unexpired(btl, k.ns, k.coll, k.blk, max)
    ensures var s' := Purged(s, max);
            var data, data' := CombinedStore.StoredData(s.docs, k.blk), CombinedStore.StoredData(s'.docs, k.blk);
            (k in data <==> k in data') && (k in data ==> data'[k] == data[k])
  {
    if k.blk in s.docs {
      DeadIsExpired(btl, k.blk, s.docs[k.blk], max);
      if Emptied(s.docs[k.blk], max) {
        CombinedStore.NothingLeft(s.docs[k.blk].data, DeadData(s.docs[k.blk].expiry, max));
      }
    }
  }

  /** Over every run a purge never deletes an unexpired missing-data entry, ineligible ones included. */
  lemma PurgeNeverDropsEntry(btl: BtlPolicy, ops: seq<Op>, s: State, max: uint64, k: MissingKey)
    requires Run(btl, Initial(), ops, s) && btl(k.ns, k.coll, k.blk).Some? && btl(k.ns, k.coll, k.blk).value > max
    ensures var s' := Purged(s, max);
            && (k in s.prio ==> k in s'.prio && s'.prio[k] == s.prio[k])
            && (k in s.deprio ==> k in s'.deprio && s'.deprio[k] == s.deprio[k])
            && (k in s.inelg ==> k in s'.inelg && s'.inelg[k] == s.inelg[k])
  {
    RunKeepsSound(btl, Initial(), ops, s);
    PurgeKeepsEntry(btl, s, max, k);
  }

  // ----- Reconciliation

  // The store takes the data: it never expires, or its expiry entry is still there
  predicate Takes(btl: BtlPolicy, docs: map<uint64, Doc>, k: DataKey) {
    && btl(k.ns, k.coll, k.blk).Some?
    && var e := btl(k.ns, k.coll, k.blk).value;
       e == MAX_UINT64 || (k.blk in docs && ExpiryKey(e, k.blk) in docs[k.blk].expiry)
  }

  // Data of the key is offered and taken
  predicate Arrives(btl: BtlPolicy, docs: map<uint64, Doc>, blocks: Blocks, k: DataKey) {
    k.blk in blocks && WritesKey(DataEntries(k.blk, blocks[k.blk]), k) && Takes(btl, docs, k)
  }

  lemma {:induction false} StagedLast(btl: BtlPolicy, stored: ExpiryIndex, es: seq<DataEntry>, k: DataKey)
    requires Known(btl, es)
    ensures k in Stage(btl, stored, es).data <==>
            WritesKey(es, k) && DataExpiringBlk(btl, k).Some? && Accepted(btl, stored, k)
    ensures k in Stage(btl, stored, es).data ==> LastWritten(es, k, Stage(btl, stored, es).data[k])
  {
    if es != [] {
      var last := |es| - 1;
      StagedLast(btl, stored, es[..last], k);
      var st, st' := Stage(btl, stored, es[..last]), Stage(btl, stored, es);
      if es[last].key == k {
        assert LastAt(es, last, k, es[last].value);
      } else {
        assert k in st.data <==> k in st'.data;
        if k in st.data {
          var i :| 0 <= i < last && LastAt(es[..last], i, k, st.data[k]);
          assert LastAt(es, i, k, st'.data[k]);
        }
        if WritesKey(es, k) {
          var i :| 0 <= i < |es| && es[i].key == k;
          assert es[..last][i].key == k;
        }
      }
    }
  }

  lemma StagedIffArrives(btl: BtlPolicy, s: State, blocks: Blocks, b: uint64, k: DataKey)
    requires AllKnown(btl, blocks) && b in blocks
    ensures k in StageOf(btl, s.docs, b, blocks[b]).data <==> b == k.blk && Arrives(btl, s.docs, blocks, k)
  {
    var es := DataEntries(b, blocks[b]);
    StagedLast(btl, DocOf(s.docs, b).expiry, es, k);
    EntriesAreOfBlock(b, blocks[b]);
  }

  lemma ReconciledIffArrives(btl: BtlPolicy, s: State, blocks: Blocks, k: DataKey)
    requires AllKnown(btl, blocks)
    ensures (MissingKey(k.ns, k.coll, k.blk), k.tx) in ReconciledBits(btl, s.docs, blocks) <==>
            Arrives(btl, s.docs, blocks, k)
  {
    var x := (MissingKey(k.ns, k.coll, k.blk), k.tx);
    if x in ReconciledBits(btl, s.docs, blocks) {
      var b, k' :| b in blocks && k' in StageOf(btl, s.docs, b, blocks[b]).data && BitOf(k') == x;
      assert k' == k;
      StagedIffArrives(btl, s, blocks, b, k);
    }
    if Arrives(btl, s.docs, blocks, k) {
      StagedIffArrives(btl, s, blocks, k.blk, k);
      assert BitOf(k) == x;
    }
  }

  /**
    What a reconciliation does to one bit: data that arrives clears it, from the deprioritized group only when the
    prioritized one lacks it; a listed bit moves to the deprioritized group when its collection is prioritized.
   */
  lemma ReconciledBitIff(btl: BtlPolicy, s: State, blocks: Blocks, unreconciled: MissingBits, k: DataKey)
    requires AllKnown(btl, blocks)
    ensures var s', x := Reconciled(btl, s, blocks, unreconciled), (MissingKey(k.ns, k.coll, k.blk), k.tx);
            var arrives := Arrives(btl, s.docs, blocks, k);
            && (x in Bits(s'.prio) <==> x in Bits(s.prio) && !arrives && x !in unreconciled)
            && (x in Bits(s'.deprio) <==>
                (x in Bits(s.deprio) && (arrives ==> x in Bits(s.prio))) || (x in unreconciled && x.0 in s.prio))
            && s'.inelg == s.inelg
  {
    var bits := ReconciledBits(btl, s.docs, blocks);
    FromBitsBits(PrioBits(s.prio, bits, unreconciled));
    FromBitsBits(DeprioBits(s.prio, s.deprio, bits, unreconciled));
    ReconciledIffArrives(btl, s, blocks, k);
  }

  /** Data that is stored is no longer reported as missing, and a bit that is not listed is cleared only by its data. */
  lemma ReconciliationClearsIff(btl: BtlPolicy, s: State, blocks: Blocks, unreconciled: MissingBits, ns: Name,
                                coll: Name, blk: uint64, tx: uint64)
    requires AllKnown(btl, blocks) && Disjoint(s.prio, s.deprio) && blk in blocks
    requires (MissingKey(ns, coll, blk), tx) !in unreconciled
    ensures var s', x := Reconciled(btl, s, blocks, unreconciled), (MissingKey(ns, coll, blk), tx);
            x in Bits(s'.prio) + Bits(s'.deprio) <==>
            && x in Bits(s.prio) + Bits(s.deprio)
            && DataKey(ns, coll, blk, tx) !in StageOf(btl, s.docs, blk, blocks[blk]).data
  {
    var k, x := DataKey(ns, coll, blk, tx), (MissingKey(ns, coll, blk), tx);
    ReconciledBitIff(btl, s, blocks, unreconciled, k);
    StagedIffArrives(btl, s, blocks, blk, k);
    assert x in Bits(s.prio) && x in Bits(s.deprio) ==> x in Bits(s.prio) * Bits(s.deprio);
  }

  /** Documents gain exactly the data that arrives, the last offer of a key winning over what was stored. */
  lemma ReconciledDataIff(btl: BtlPolicy, s: State, blocks: Blocks, unreconciled: MissingBits, k: DataKey)
    requires Sound(btl, s) && AllKnown(btl, blocks)
    ensures var s' := Reconciled(btl, s, blocks, unreconciled);
            var data, data' := CombinedStore.StoredData(s.docs, k.blk), CombinedStore.StoredData(s'.docs, k.blk);
            && (k in data' <==> k in data || Arrives(btl, s.docs, blocks, k))
            && (k in data' && Arrives(btl, s.docs, blocks, k) ==>
                LastWritten(DataEntries(k.blk, blocks[k.blk]), k, data'[k]))
            && (k in data' && !Arrives(btl, s.docs, blocks, k) ==> data'[k] == data[k])
            && s'.last == s.last && s'.empty == s.empty
  {
    CombinedStore.ReconciledData(btl, s.docs, blocks, k.blk);
    if k.blk in blocks {
      StagedIffArrives(btl, s, blocks, k.blk, k);
      StagedLast(btl, DocOf(s.docs, k.blk).expiry, DataEntries(k.blk, blocks[k.blk]), k);
    }
  }

  // ----- Conversion

  // Some decodable event of the block or a later one names the collection
  predicate MadeEligible(events: EventMap, k: MissingKey) {
    k.blk > 0 && exists e :: e in events && k.blk <= e && events[e].Some? && k.ns in events[e].value &&
                             k.coll in events[e].value[k.ns]
  }

  /** A conversion moves exactly the ineligible entries that some event names, each over the prioritized one. */
  lemma ConvertedBitIff(s: State, events: EventMap, k: MissingKey, tx: uint64)
    ensures var s' := ConvertedState(s, events);
            var moves := MadeEligible(events, k) && k in s.inelg;
            && ((k, tx) in Bits(s'.prio) <==> (k, tx) in if moves then Bits(s.inelg) else Bits(s.prio))
            && ((k, tx) in Bits(s'.inelg) <==> (k, tx) in Bits(s.inelg) && !moves)
            && s' == s.(prio := s'.prio, inelg := s'.inelg)
  {
    var db := IndexOf(s, events);
    if k in s.inelg {
      NamedIff(s, events, k);
    }
  }

  lemma NamedIff(s: State, events: EventMap, k: MissingKey)
    requires k in s.inelg
    ensures k in Eligibility.AllNamed(IndexOf(s, events)) <==> MadeEligible(events, k)
  {
    var db := IndexOf(s, events);
    if MadeEligible(events, k) {
      var e :| e in events && k.blk <= e && events[e].Some? && k.ns in events[e].value &&
          k.coll in events[e].value[k.ns];
      assert e in Eligibility.Events(db) && k in Eligibility.Named(db, e);
    }
    if k in Eligibility.AllNamed(db) {
      var e :| e in Eligibility.Events(db) && k in Eligibility.Named(db, e);
      assert e in events && k.blk <= e;
    }
  }

  // ----- The missing-data report

  // The newer blocks that have an unexpired entry
  function NewerBlocks(btl: BtlPolicy, m: MissingMap, last: uint64, blk: uint64): set<uint64> {
    set k | k in m && blk < k.blk <= last && Unexpired(btl, k.ns, k.coll, k.blk, last) :: k.blk
  }

  lemma NewerIs(btl: BtlPolicy, m: MissingMap, last: uint64, blk: uint64)
    ensures Newer(BlocksOf(Live(btl, m, last)), blk) == NewerBlocks(btl, m, last, blk)
  {
    var live := Live(btl, m, last);
    forall b ensures b in Newer(BlocksOf(live), blk) <==> b in NewerBlocks(btl, m, last, blk) {
      if b in NewerBlocks(btl, m, last, blk) {
        var k :| k in m && blk < k.blk <= last && Unexpired(btl, k.ns, k.coll, k.blk, last) && k.blk == b;
        assert k in live;
      }
      if b in Newer(BlocksOf(live), blk) {
        var k :| k in live && k.blk == b;
      }
    }
  }

  /** A report holds exactly the bits of unexpired entries that have fewer than the limit's blocks before them. */
  lemma ReportedIff(btl: BtlPolicy, m: MissingMap, last: uint64, max: int, k: MissingKey, tx: uint64)
    requires Report(btl, m, last, max).Ok?
    ensures (k, tx) in Report(btl, m, last, max).value <==>
            && k in m && tx in m[k] && 0 < k.blk <= last && Unexpired(btl, k.ns, k.coll, k.blk, last)
            && |NewerBlocks(btl, m, last, k.blk)| < max
  {
    NewerIs(btl, m, last, k.blk);
  }

  // The scan comes to an entry of a collection without a policy
  predicate MeetsUnknown(btl: BtlPolicy, m: MissingMap, last: uint64, max: int) {
    exists k :: k in m && 0 < k.blk <= last && btl(k.ns, k.coll, k.blk).None? &&
                |NewerBlocks(btl, m, last, k.blk)| < max
  }

  /** A report fails exactly when such an entry has fewer than the limit's blocks before it. */
  lemma ReportFailsIff(btl: BtlPolicy, m: MissingMap, last: uint64, max: int)
    ensures Report(btl, m, last, max).Err? <==> MeetsUnknown(btl, m, last, max)
    ensures Report(btl, m, last, max).Err? ==> Report(btl, m, last, max) == Err(PolicyFailed)
  {
    forall k: MissingKey
      ensures Newer(BlocksOf(Live(btl, m, last)), k.blk) == NewerBlocks(btl, m, last, k.blk)
    {
      NewerIs(btl, m, last, k.blk);
    }
    if MeetsUnknown(btl, m, last, max) {
      var k :| k in m && 0 < k.blk <= last && btl(k.ns, k.coll, k.blk).None? &&
          |NewerBlocks(btl, m, last, k.blk)| < max;
      assert Reached(Live(btl, m, last), k, max);
    }
    if max >= 1 && UnknownReached(btl, m, last, max) {
      var k :| k in m && 0 < k.blk <= last && ExpiringBlk(btl, k).None? && Reached(Live(btl, m, last), k, max);
      assert |NewerBlocks(btl, m, last, k.blk)| < max;
    }
  }
}
