/** The store object: its methods against the specifications of PvtStore and Reconcile. */
module CdbStore {
  import opened Digits
  import opened PvtTypes
  import opened KeyEncoding
  import opened Sorting
  import opened Assembler
  import opened StoreEntries
  import opened PvtStore
  import opened Reconcile

  // ----- One document's purge

  function Restrict(expiry: ExpiryIndex, keys: set<ExpiryKey>): ExpiryIndex {
    map ek | ek in expiry && ek in keys :: expiry[ek]
  }

  lemma DeadWith(expiry: ExpiryIndex, done: set<ExpiryKey>, ek: ExpiryKey, max: uint64)
    requires ek in expiry && ek !in done && ek.expiring <= max
    ensures DeadData(Restrict(expiry, done + {ek}), max) ==
        DeadData(Restrict(expiry, done), max) + DerivedData(ek, expiry[ek])
    ensures DeadMissing(Restrict(expiry, done + {ek}), max) ==
        DeadMissing(Restrict(expiry, done), max) + DerivedMissing(ek, expiry[ek])
    ensures LaterBlocks(Restrict(expiry, done + {ek}), max) == LaterBlocks(Restrict(expiry, done), max)
  {
    var a, b := Restrict(expiry, done + {ek}), Restrict(expiry, done);
    assert a.Keys == b.Keys + {ek};
    forall k ensures k in DeadData(a, max) <==> k in DeadData(b, max) + DerivedData(ek, expiry[ek]) {
      if k in DeadData(a, max) {
        var x, p :| x in a && x.expiring <= max && p in a[x].present && KeyOfPresent(x.committing, p) == k;
        assert x == ek || x in b;
      }
      if k in DeadData(b, max) {
        var x, p :| x in b && x.expiring <= max && p in b[x].present && KeyOfPresent(x.committing, p) == k;
        assert x in a;
      }
      if k in DerivedData(ek, expiry[ek]) {
        assert ek in a;
      }
    }
    forall k ensures k in DeadMissing(a, max) <==> k in DeadMissing(b, max) + DerivedMissing(ek, expiry[ek]) {
      if k in DeadMissing(a, max) {
        var x, c :| x in a && x.expiring <= max && c in a[x].missing && KeyOfMissing(x.committing, c) == k;
        assert x == ek || x in b;
      }
      if k in DeadMissing(b, max) {
        var x, c :| x in b && x.expiring <= max && c in b[x].missing && KeyOfMissing(x.committing, c) == k;
        assert x in a;
      }
      if k in DerivedMissing(ek, expiry[ek]) {
        assert ek in a;
      }
    }
    LaterWith(a, b, ek, max);
  }

  lemma LaterWith(a: ExpiryIndex, b: ExpiryIndex, ek: ExpiryKey, max: uint64)
    requires a.Keys == b.Keys + {ek}
    ensures LaterBlocks(a, max) == LaterBlocks(b, max) + if ek.expiring > max then {ek.expiring} else {}
  {
    forall e
      ensures e in LaterBlocks(a, max) <==> e in LaterBlocks(b, max) + if ek.expiring > max then {ek.expiring} else {}
    {
      if e in LaterBlocks(a, max) {
        var x :| x in a && x.expiring > max && x.expiring == e;
        assert x == ek || x in b;
      }
      if e in LaterBlocks(b, max) {
        var x :| x in b && x.expiring > max && x.expiring == e;
        assert x in a;
      }
    }
  }

  lemma LaterKept(expiry: ExpiryIndex, done: set<ExpiryKey>, ek: ExpiryKey, max: uint64)
    requires ek in expiry && ek !in done && ek.expiring > max
    ensures DeadData(Restrict(expiry, done + {ek}), max) == DeadData(Restrict(expiry, done), max)
    ensures DeadMissing(Restrict(expiry, done + {ek}), max) == DeadMissing(Restrict(expiry, done), max)
    ensures LaterBlocks(Restrict(expiry, done + {ek}), max) == LaterBlocks(Restrict(expiry, done), max) + {ek.expiring}
  {
    var a, b := Restrict(expiry, done + {ek}), Restrict(expiry, done);
    assert a.Keys == b.Keys + {ek};
    assert forall x :: x in a && x.expiring <= max ==> x in b && a[x] == b[x];
    assert forall x :: x in b ==> x in a && a[x] == b[x];
    LaterWith(a, b, ek, max);
  }

  method GetExpiredDataDoc(doc: Doc, max: uint64) returns (r: Doc, dead: set<MissingKey>)
    ensures r == PurgedDoc(doc, max)
    ensures dead == DeadMissing(doc.expiry, max)
  {
    var data, expiring: set<uint64> := doc.data, {};
    dead := {};
    var rest := doc.expiry.Keys;
    ghost var done: set<ExpiryKey> := {};
    while rest != {}
      invariant rest <= doc.expiry.Keys && done == doc.expiry.Keys - rest
      invariant data == doc.data - DeadData(Restrict(doc.expiry, done), max)
      invariant dead == DeadMissing(Restrict(doc.expiry, done), max)
      invariant expiring == LaterBlocks(Restrict(doc.expiry, done), max)
      decreases rest
    {
      var ek :| ek in rest;
      if ek.expiring <= max {
        DeadWith(doc.expiry, done, ek, max);
        data := data - DerivedData(ek, doc.expiry[ek]);
        dead := dead + DerivedMissing(ek, doc.expiry[ek]);
      } else {
        LaterKept(doc.expiry, done, ek, max);
        expiring := expiring + {ek.expiring};
      }
      rest, done := rest - {ek}, done + {ek};
    }
    assert Restrict(doc.expiry, done) == doc.expiry;
    r := Doc(data, doc.expiry, expiring);
  }

  function Chosen(docs: map<uint64, Doc>, done: set<uint64>, max: uint64): set<uint64> {
    set b | b in docs && b in done && Selected(docs[b], max)
  }

  function Replacements(docs: map<uint64, Doc>, done: set<uint64>, max: uint64): map<uint64, Doc> {
    map b | b in docs && b in Chosen(docs, done, max) :: PurgedDoc(docs[b], max)
  }

  function DeadOf(docs: map<uint64, Doc>, done: set<uint64>, max: uint64): set<MissingKey> {
    set b, k | b in docs && b in done && Selected(docs[b], max) && k in DeadMissing(docs[b].expiry, max) :: k
  }

  method PrepareExpiredData(docs: map<uint64, Doc>, max: uint64)
    returns (updated: map<uint64, Doc>, dead: set<MissingKey>)
    ensures updated == Replacements(docs, docs.Keys, max)
    ensures dead == SelectedDead(docs, max)
  {
    updated, dead := map[], {};
    var rest := docs.Keys;
    ghost var done: set<uint64> := {};
    while rest != {}
      invariant rest <= docs.Keys && done == docs.Keys - rest
      invariant updated == Replacements(docs, done, max)
      invariant dead == DeadOf(docs, done, max)
      decreases rest
    {
      var b :| b in rest;
      DeadOfWith(docs, done, b, max);
      if Selected(docs[b], max) {
        var doc, gone := GetExpiredDataDoc(docs[b], max);
        updated := updated[b := doc];
        dead := dead + gone;
      }
      rest, done := rest - {b}, done + {b};
    }
    assert done == docs.Keys;
    assert dead == SelectedDead(docs, max);
  }

  lemma DeadOfWith(docs: map<uint64, Doc>, done: set<uint64>, b: uint64, max: uint64)
    requires b in docs && b !in done
    ensures DeadOf(docs, done + {b}, max) ==
            DeadOf(docs, done, max) + if Selected(docs[b], max) then DeadMissing(docs[b].expiry, max) else {}
    ensures Replacements(docs, done + {b}, max) ==
            if Selected(docs[b], max) then Replacements(docs, done, max)[b := PurgedDoc(docs[b], max)]
            else Replacements(docs, done, max)
  {
  }

  // A document left without data is deleted
  function Apply(docs: map<uint64, Doc>, updated: map<uint64, Doc>): map<uint64, Doc> {
    map b | b in docs && !(b in updated && updated[b].data == map[]) :: if b in updated then updated[b] else docs[b]
  }

  lemma UpdatedIsPurged(docs: map<uint64, Doc>, updated: map<uint64, Doc>, max: uint64)
    requires updated == Replacements(docs, docs.Keys, max)
    ensures Apply(docs, updated) == PurgedDocs(docs, max)
  {
  }

  // ----- Staging old blocks

  method StageEntries(btl: BtlPolicy, stored: ExpiryIndex, entries: seq<DataEntry>) returns (r: Option<Staged>)
    ensures r.Some? <==> Known(btl, entries)
    ensures r.Some? ==> r.value == Stage(btl, stored, entries)
  {
    var st := Staged(map[], map[]);
    for i := 0 to |entries|
      invariant Known(btl, entries[..i])
      invariant st == Stage(btl, stored, entries[..i])
    {
      if DataExpiringBlk(btl, entries[i].key).None? {
        return None;
      }
      assert Known(btl, entries[..i + 1]);
      assert entries[..i + 1][..i] == entries[..i];
      st := StageEntry(btl, stored, st, entries[i]);
    }
    assert entries[..|entries|] == entries;
    return Some(st);
  }

  type StagedBlocks = map<uint64, Staged>

  method StageBlocks(btl: BtlPolicy, docs: map<uint64, Doc>, blocks: Blocks) returns (r: Option<StagedBlocks>)
    ensures r.Some? <==> AllKnown(btl, blocks)
    ensures r.Some? ==> StagedFrom(btl, docs, blocks, r.value)
  {
    var staged: StagedBlocks := map[];
    var rest := blocks.Keys;
    while rest != {}
      invariant rest <= blocks.Keys && staged.Keys == blocks.Keys - rest
      invariant forall b :: b in staged ==>
                  Known(btl, DataEntries(b, blocks[b])) && staged[b] == StageOf(btl, docs, b, blocks[b])
      decreases rest
    {
      var b :| b in rest;
      var entries := PrepareDataEntries(b, blocks[b]);
      var st := StageEntries(btl, DocOf(docs, b).expiry, entries);
      if st.None? {
        return None;
      }
      staged := staged[b := st.value];
      rest := rest - {b};
    }
    return Some(staged);
  }

  function MergeAll(docs: map<uint64, Doc>, staged: StagedBlocks): map<uint64, Doc> {
    map b | b in docs.Keys + staged.Keys && (b in docs || staged[b].data != map[])
      :: if b in staged && staged[b].data != map[] then Merge(DocOf(docs, b), staged[b]) else DocOf(docs, b)
  }

  function StagedBits(staged: StagedBlocks): MissingBits {
    set b, k | b in staged && k in staged[b].data :: BitOf(k)
  }

  ghost predicate StagedFrom(btl: BtlPolicy, docs: map<uint64, Doc>, blocks: Blocks, staged: StagedBlocks)
    requires AllKnown(btl, blocks)
  {
    staged.Keys == blocks.Keys && forall b :: b in blocks ==> staged[b] == StageOf(btl, docs, b, blocks[b])
  }

  lemma MergedIsReconciled(btl: BtlPolicy, docs: map<uint64, Doc>, blocks: Blocks, staged: StagedBlocks)
    requires AllKnown(btl, blocks) && StagedFrom(btl, docs, blocks, staged)
    ensures MergeAll(docs, staged) == ReconciledDocs(btl, docs, blocks)
  {
    var a, b := MergeAll(docs, staged), ReconciledDocs(btl, docs, blocks);
    forall x ensures (x in a <==> x in b) && (x in a ==> a[x] == b[x]) {
      assert Updated(btl, docs, blocks, x) <==> x in staged && staged[x].data != map[];
    }
  }

  lemma StagedBitsReconciled(btl: BtlPolicy, docs: map<uint64, Doc>, blocks: Blocks, staged: StagedBlocks)
    requires AllKnown(btl, blocks) && StagedFrom(btl, docs, blocks, staged)
    ensures StagedBits(staged) == ReconciledBits(btl, docs, blocks)
  {
    var bits := ReconciledBits(btl, docs, blocks);
    forall x ensures x in StagedBits(staged) <==> x in bits {
      if x in StagedBits(staged) {
        var b, k :| b in staged && k in staged[b].data && BitOf(k) == x;
        assert k in StageOf(btl, docs, b, blocks[b]).data;
      }
      if x in bits {
        var b, k :| b in blocks && k in StageOf(btl, docs, b, blocks[b]).data && BitOf(k) == x;
        assert k in staged[b].data;
      }
    }
  }

  // ----- What a read lists

  const ENTRY_ORDER: DataEntry -> seq<nat> := (e: DataEntry) => EncodeDataKey(e.key)

  function EntrySet(data: map<DataKey, CollWrites>): set<DataEntry> {
    set k | k in data :: DataEntry(k, data[k])
  }

  lemma SortedEntriesList(data: map<DataKey, CollWrites>, es: seq<DataEntry>)
    requires KeysSorted(es) && forall e :: e in es <==> e.key in data && data[e.key] == e.value
    ensures Lists(ENTRY_ORDER, es, EntrySet(data))
  {
    forall i, j | 0 <= i < j < |es| ensures Less(ENTRY_ORDER(es[i]), ENTRY_ORDER(es[j])) {
    }
  }

  // Skipping the hidden entries of a sorted document lists the visible ones
  lemma FilterIsVisible(data: map<DataKey, CollWrites>, es: seq<DataEntry>, seen: map<DataKey, CollWrites>,
                        keep: DataEntry -> bool)
    requires Lists(ENTRY_ORDER, es, EntrySet(data))
    requires forall e :: e in EntrySet(data) && keep(e) <==> e.key in seen && seen[e.key] == e.value
    ensures Sorting.Filter(es, keep) == SortedEntries(seen)
  {
    FilterLists(ENTRY_ORDER, es, EntrySet(data), keep);
    SortedEntriesList(seen, SortedEntries(seen));
    assert (set e | e in EntrySet(data) && keep(e)) == EntrySet(seen);
    ListingUnique(ENTRY_ORDER, Sorting.Filter(es, keep), SortedEntries(seen), EntrySet(seen));
  }

  class Store {
    const btl: BtlPolicy
    var lastCommittedBlock: uint64
    var empty: bool
    var lastBlockDoc: Option<uint64>
    var docs: map<uint64, Doc>
    var prio: MissingMap
    var deprio: MissingMap
    var inelg: MissingMap

    ghost function View(): State
      reads this
    {
      State(lastCommittedBlock, empty, lastBlockDoc, docs, prio, deprio, inelg)
    }

    constructor (btl: BtlPolicy)
      ensures this.btl == btl && View() == Initial()
    {
      this.btl := btl;
      lastCommittedBlock, empty, lastBlockDoc := 0, true, None;
      docs, prio, deprio, inelg := map[], map[], map[], map[];
    }

    method NextBlockNum() returns (n: uint64)
      ensures n == NextBlock(View())
    {
      n := if empty then 0 else Increment(lastCommittedBlock);
    }

    method Commit(blk: uint64, pvt: seq<TxPvtData>, missing: TxMissing) returns (err: Option<Error>)
      modifies this
      ensures var entries := EntriesOfBlock(btl, blk, pvt, missing);
              err == CommitError(old(View()), blk, entries) &&
              View() == if err.None? then Committed(old(View()), blk, entries.value) else old(View())
    {
      var expected := NextBlockNum();
      if expected != blk {
        return Some(IllegalCall);
      }
      var entries := PrepareStoreEntries(btl, blk, pvt, missing);
      err := CommitEntries(blk, entries);
    }

    method CommitEntries(blk: uint64, entries: Option<Entries>) returns (err: Option<Error>)
      modifies this
      ensures err == CommitError(old(View()), blk, entries)
      ensures View() == if err.None? then Committed(old(View()), blk, entries.value) else old(View())
    {
      var expected := NextBlockNum();
      if expected != blk {
        return Some(IllegalCall);
      }
      if entries.None? {
        return Some(PolicyFailed);
      }
      if lastBlockDoc.Some? && lastBlockDoc.value > MAX_INT64 {
        return Some(LastBlockUnreadable);
      }
      if |entries.value.data| > 0 || |entries.value.expiry| > 0 {
        docs := docs[blk := NewDoc(blk, MapOf(entries.value.data), entries.value.expiry)];
      }
      lastBlockDoc := Some(blk);
      prio := prio + entries.value.elg;
      inelg := inelg + entries.value.inelg;
      lastCommittedBlock, empty := blk, false;
      return None;
    }

    method GetPvtDataByBlockNum(blk: uint64, filter: Filter) returns (r: Result<seq<TxPvtData>>)
      ensures r == Read(View(), btl, blk, filter)
    {
      if empty || blk > lastCommittedBlock {
        return Err(OutOfRange);
      }
      if blk !in docs {
        return Ok([]);
      }
      r := ReadStored(btl, docs[blk], filter, lastCommittedBlock);
    }

    method PurgeExpiredData(max: uint64)
      modifies this
      ensures View() == Purged(old(View()), max)
    {
      var updated, dead := PrepareExpiredData(docs, max);
      UpdatedIsPurged(docs, updated, max);
      docs := Apply(docs, updated);
      prio, deprio, inelg := prio - dead, deprio - dead, inelg - dead;
    }

    method CommitPvtDataOfOldBlocks(blocks: Blocks, unreconciled: MissingBits) returns (err: Option<Error>)
      requires NoEmptyBitmap(prio) && NoEmptyBitmap(deprio)
      modifies this
      ensures err == if AllKnown(btl, blocks) then None else Some(PolicyFailed)
      ensures View() == if err.None? then Reconciled(btl, old(View()), blocks, unreconciled) else old(View())
    {
      var staged := StageBlocks(btl, docs, blocks);
      if staged.None? {
        return Some(PolicyFailed);
      }
      MergedIsReconciled(btl, docs, blocks, staged.value);
      StagedBitsReconciled(btl, docs, blocks, staged.value);
      var p, d := UpdateMissing(prio, deprio, StagedBits(staged.value), unreconciled);
      docs := MergeAll(docs, staged.value);
      prio, deprio := p, d;
      return None;
    }

    method Reopen() returns (err: Option<Error>)
      modifies this
      ensures match Reopened(old(View()))
              case Ok(s) => err == None && View() == s
              case Err(e) => err == Some(e) && View() == old(View())
    {
      var v: uint64 := if lastBlockDoc.None? then 0 else lastBlockDoc.value;
      if v > MAX_INT64 {
        return Some(LastBlockUnreadable);
      }
      lastCommittedBlock, empty := v, v == 0;
      return None;
    }
  }

  method ReadStored(btl: BtlPolicy, doc: Doc, filter: PvtStore.Filter, latest: uint64)
    returns (r: Result<seq<TxPvtData>>)
    ensures r == ReadDoc(doc, btl, filter, latest)
  {
    var rest := doc.data.Keys;
    while rest != {}
      invariant rest <= doc.data.Keys
      invariant forall k :: k in doc.data && k !in rest ==> DataExpiringBlk(btl, k).Some?
      decreases rest
    {
      var k :| k in rest;
      if DataExpiringBlk(btl, k).None? {
        return Err(PolicyFailed);
      }
      rest := rest - {k};
    }
    DataKeysSeparate();
    var ks := Sort(DATA_KEY_ORDER, doc.data.Keys);
    var entries := EntriesOf(doc.data, ks);
    var keep := (e: DataEntry) =>
      DataExpiringBlk(btl, e.key).Some? && latest < DataExpiringBlk(btl, e.key).value && Passes(e.key, filter);
    var pvt := AssembleBlock(entries, keep);
    EntriesOfListing(doc.data, ks);
    SortedEntriesList(doc.data, entries);
    FilterIsVisible(doc.data, entries, Visible(doc, btl, filter, latest), keep);
    return Ok(pvt);
  }
}
