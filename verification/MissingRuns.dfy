/** Whether purges clear the missing-data index of everything that has expired. */
module MissingRuns {
  import opened PvtTypes
  import opened Assembler
  import opened StoreEntries
  import opened PvtStore
  import opened Reconcile
  import opened StoreRuns

  // An expirable entry is listed in its block's document for its expiring block, and that block is in the index
  predicate Listed(btl: BtlPolicy, docs: map<uint64, Doc>, k: MissingKey) {
    && ExpiringBlk(btl, k).Some?
    && (Expires(btl, k) ==> k.blk in docs && ListedIn(docs[k.blk], k, ExpiringBlk(btl, k).value))
  }

  predicate Expires(btl: BtlPolicy, k: MissingKey) {
    ExpiringBlk(btl, k).Some? && !NeverExpires(ExpiringBlk(btl, k).value)
  }

  predicate ListedIn(doc: Doc, k: MissingKey, e: uint64) {
    && ExpiryKey(e, k.blk) in doc.expiry
    && NsColl(k.ns, k.coll) in doc.expiry[ExpiryKey(e, k.blk)].missing
    && e in doc.expiring
  }

  ghost predicate AllListed(btl: BtlPolicy, s: State) {
    forall k :: k in Keys(s) ==> Listed(btl, s.docs, k)
  }

  // ----- Purge

  lemma ListedDies(btl: BtlPolicy, s: State, k: MissingKey, max: uint64)
    requires Listed(btl, s.docs, k) && Expires(btl, k) && ExpiringBlk(btl, k).value <= max
    ensures k in SelectedDead(s.docs, max)
  {
    var doc := s.docs[k.blk];
    SelectedNumerically(doc, max);
    assert k == KeyOfMissing(k.blk, NsColl(k.ns, k.coll));
    assert k in DeadMissing(doc.expiry, max);
  }

  /** When every expirable entry is listed, a purge leaves no entry that expires at or before its block. */
  lemma PurgeClearsExpired(btl: BtlPolicy, s: State, max: uint64, k: MissingKey)
    requires AllListed(btl, s) && max < MAX_UINT64 && k in Keys(Purged(s, max))
    ensures ExpiringBlk(btl, k).Some? && ExpiringBlk(btl, k).value > max
  {
    assert k in Keys(s) && k !in SelectedDead(s.docs, max);
    if ExpiringBlk(btl, k).value <= max {
      ListedDies(btl, s, k, max);
    }
  }

  // No document the purge deletes is the one an entry left in the index needs
  predicate Spares(btl: BtlPolicy, s: State, max: uint64) {
    forall k :: k in Keys(Purged(s, max)) && Expires(btl, k) && k.blk in s.docs ==> !Emptied(s.docs[k.blk], max)
  }

  lemma ListedLater(doc: Doc, k: MissingKey, e: uint64, max: uint64)
    requires ListedIn(doc, k, e) && e > max
    ensures ListedIn(PurgedDoc(doc, max), k, e)
  {
    assert ExpiryKey(e, k.blk).expiring in LaterBlocks(doc.expiry, max);
  }

  lemma PurgedListedIff(btl: BtlPolicy, s: State, max: uint64, k: MissingKey)
    requires Listed(btl, s.docs, k) && k !in SelectedDead(s.docs, max)
    ensures Listed(btl, Purged(s, max).docs, k) <==> (Expires(btl, k) ==> !Emptied(s.docs[k.blk], max))
  {
    if Expires(btl, k) {
      if ExpiringBlk(btl, k).value <= max {
        ListedDies(btl, s, k, max);
      } else {
        ListedLater(s.docs[k.blk], k, ExpiringBlk(btl, k).value, max);
      }
    }
  }

  /** A purge keeps every remaining entry listed exactly when it deletes no document that lists one. */
  lemma PurgeKeepsListedIff(btl: BtlPolicy, s: State, max: uint64)
    requires AllListed(btl, s)
    ensures AllListed(btl, Purged(s, max)) <==> Spares(btl, s, max)
  {
    var s' := Purged(s, max);
    forall k | k in Keys(s')
      ensures Listed(btl, s.docs, k) && (Listed(btl, s'.docs, k) <==>
          (Expires(btl, k) ==> !Emptied(s.docs[k.blk], max)))
    {
      assert k in Keys(s) && k !in SelectedDead(s.docs, max);
      PurgedListedIff(btl, s, max, k);
    }
  }

  // ----- The other operations

  lemma NewEntryListed(btl: BtlPolicy, blk: uint64, data: set<DataKey>, missing: set<MissingKey>, k: MissingKey)
    requires PolicyKnows(btl, data, missing) && k in missing && k.blk == blk && Expires(btl, k)
    ensures var expiry := ExpiryEntries(btl, data, missing);
            expiry != map[] && forall m :: ListedIn(NewDoc(blk, m, expiry), k, ExpiringBlk(btl, k).value)
  {
    var expiry, e := ExpiryEntries(btl, data, missing), ExpiringBlk(btl, k).value;
    assert e in expiry;
    assert NsColl(k.ns, k.coll) in expiry[e].missing;
  }

  // The entries of the block's own document are listed in it
  ghost predicate OwnListed(btl: BtlPolicy, blk: uint64, entries: Entries) {
    forall k :: k in entries.elg.Keys + entries.inelg.Keys ==>
      && k.blk == blk && ExpiringBlk(btl, k).Some?
      && (Expires(btl, k) ==> entries.expiry != map[]
                              && ListedIn(NewDoc(blk, MapOf(entries.data), entries.expiry), k,
                                  ExpiringBlk(btl, k).value))
  }

  lemma PreparedListed(btl: BtlPolicy, blk: uint64, pvt: seq<TxPvtData>, missing: TxMissing)
    requires EntriesOfBlock(btl, blk, pvt, missing).Some?
    ensures OwnListed(btl, blk, EntriesOfBlock(btl, blk, pvt, missing).value)
  {
    var entries := EntriesOfBlock(btl, blk, pvt, missing).value;
    PreparedSound(btl, blk, pvt, missing);
    forall k | k in entries.elg.Keys + entries.inelg.Keys && Expires(btl, k)
      ensures entries.expiry != map[] && ListedIn(NewDoc(blk, MapOf(entries.data), entries.expiry), k,
          ExpiringBlk(btl, k).value)
    {
      NewEntryListed(btl, blk, KeysOf(entries.data), entries.elg.Keys + entries.inelg.Keys, k);
    }
  }

  lemma CommitKeepsListed(btl: BtlPolicy, s: State, blk: uint64, entries: Entries)
    requires AllListed(btl, s) && IndexInv(btl, s) && (s.empty || s.last < blk) && OwnListed(btl, blk, entries)
    ensures AllListed(btl, Committed(s, blk, entries))
  {
    var s' := Committed(s, blk, entries);
    forall k | k in Keys(s') ensures Listed(btl, s'.docs, k) {
      if k !in entries.elg.Keys + entries.inelg.Keys {
        assert k in Keys(s) && k.blk != blk;
      }
    }
  }

  lemma MergeKeepsListed(btl: BtlPolicy, doc: Doc, entries: seq<DataEntry>, k: MissingKey, e: uint64)
    requires Known(btl, entries) && ListedIn(doc, k, e)
    ensures ListedIn(Merge(doc, Stage(btl, doc.expiry, entries)), k, e)
  {
    StagedExpiry(btl, doc.expiry, entries, ExpiryKey(e, k.blk));
    var m := Merge(doc, Stage(btl, doc.expiry, entries));
    assert ExpiryKey(e, k.blk) in m.expiry;
  }

  lemma ReconcileKeepsListed(btl: BtlPolicy, s: State, blocks: Blocks, unreconciled: MissingBits)
    requires AllListed(btl, s) && AllKnown(btl, blocks)
    ensures AllListed(btl, Reconciled(btl, s, blocks, unreconciled))
  {
    var s' := Reconciled(btl, s, blocks, unreconciled);
    RewrittenKeys(s.prio, s.deprio, ReconciledBits(btl, s.docs, blocks), unreconciled);
    forall k | k in Keys(s') ensures Listed(btl, s'.docs, k) {
      assert k in Keys(s);
      if Expires(btl, k) && Updated(btl, s.docs, blocks, k.blk) {
        MergeKeepsListed(btl, s.docs[k.blk], DataEntries(k.blk, blocks[k.blk]), k, ExpiringBlk(btl, k).value);
      }
    }
  }

  lemma ConvertKeepsListed(btl: BtlPolicy, s: State, events: EventMap)
    requires AllListed(btl, s)
    ensures AllListed(btl, ConvertedState(s, events))
  {
    StepKeys(btl, s, Convert(events));
  }

  // ----- Runs

  // No purge of the run deletes a document that lists a remaining entry
  ghost predicate SparingRun(btl: BtlPolicy, s: State, ops: seq<Op>)
    decreases |ops|
  {
    ops == [] ||
    (Allowed(btl, s, ops[0])
     && (ops[0].Purge? ==> Spares(btl, s, ops[0].max))
     && SparingRun(btl, Apply(btl, s, ops[0]), ops[1..]))
  }

  lemma {:induction false} RunKeepsListed(btl: BtlPolicy, s: State, ops: seq<Op>, s': State)
    requires Sound(btl, s) && IndexInv(btl, s) && AllListed(btl, s)
    requires Run(btl, s, ops, s') && SparingRun(btl, s, ops)
    ensures AllListed(btl, s')
    decreases |ops|
  {
    if ops != [] {
      var op := ops[0];
      StepKeepsSound(btl, s, op);
      StepKeepsIndex(btl, s, op);
      match op {
        case Commit(blk, pvt, missing) =>
          PreparedListed(btl, blk, pvt, missing);
          CommitKeepsListed(btl, s, blk, EntriesOfBlock(btl, blk, pvt, missing).value);
        case Purge(max) =>
          PurgeKeepsListedIff(btl, s, max);
        case CommitOld(blocks, unreconciled) =>
          ReconcileKeepsListed(btl, s, blocks, unreconciled);
        case Convert(events) =>
          ConvertKeepsListed(btl, s, events);
        case Reopen =>
          ReopenInvisibleIff(btl, s);
      }
      RunKeepsListed(btl, Apply(btl, s, op), ops[1..], s');
    }
  }

  /** After every such run a purge clears all three groups of what expires at or before its block. */
  lemma PurgeAlwaysClears(btl: BtlPolicy, ops: seq<Op>, s: State, max: uint64, k: MissingKey)
    requires Run(btl, Initial(), ops, s) && SparingRun(btl, Initial(), ops) && max < MAX_UINT64
    requires k in Keys(Purged(s, max))
    ensures ExpiringBlk(btl, k).Some? && ExpiringBlk(btl, k).value > max
  {
    RunKeepsListed(btl, Initial(), ops, s);
    PurgeClearsExpired(btl, s, max, k);
  }
}
