/** Runs that show where the private data store does less than one would expect, each from an empty store. */
module Witnesses {
  import opened PvtTypes
  import opened Assembler
  import opened StoreEntries
  import opened PvtStore
  import opened Reconcile
  import opened StoreRuns
  import MissingRuns
  import Eligibility

  const NS: Name := [1]
  const COLL_A: Name := [2]
  const COLL_B: Name := [3]

  // Collection A's data lives for one block after its own and expires at the next, everything else lives for two
  const POLICY: BtlPolicy := (ns: Name, coll: Name, blk: uint64) =>
    Some(if blk > MAX_UINT64 - 3 then MAX_UINT64 else if coll == COLL_A then blk + 2 else blk + 3)

  // ----- Building runs

  lemma RunCons(btl: BtlPolicy, s: State, op: Op, ops: seq<Op>, s': State)
    requires Allowed(btl, s, op) && Run(btl, Apply(btl, s, op), ops, s')
    ensures Run(btl, s, [op] + ops, s')
  {
    assert ([op] + ops)[1..] == ops;
  }

  // A block without private data
  function Empty(blk: uint64): Op {
    Commit(blk, [], map[])
  }

  lemma EmptyEntries(btl: BtlPolicy, blk: uint64)
    ensures EntriesOfBlock(btl, blk, [], map[]) == Some(Entries([], map[], map[], map[]))
  {
    assert DataEntries(blk, []) == [] && KeysOf([]) == {};
    assert MissingEntries(blk, map[], true) == map[] && MissingEntries(blk, map[], false) == map[];
    var none: MissingMap := map[];
    assert none.Keys + none.Keys == {};
    assert ExpiryEntries(btl, {}, {}) == map[];
  }

  lemma EmptyCommit(btl: BtlPolicy, s: State, blk: uint64)
    requires NextBlock(s) == blk && (s.lastDoc.Some? ==> s.lastDoc.value <= MAX_INT64)
    ensures Allowed(btl, s, Empty(blk))
    ensures Apply(btl, s, Empty(blk)) == s.(last := blk, empty := false, lastDoc := Some(blk))
  {
    EmptyEntries(btl, blk);
  }

  // The store after block 0
  const AFTER_0 := State(0, false, Some(0), map[], map[], map[], map[])

  lemma Started(btl: BtlPolicy, ops: seq<Op>, s: State)
    requires Run(btl, AFTER_0, ops, s)
    ensures Run(btl, Initial(), [Empty(0)] + ops, s)
  {
    EmptyCommit(btl, Initial(), 0);
    RunCons(btl, Initial(), Empty(0), ops, s);
  }

  // Block 1 committed with its data and missing data
  function After1(pvt: seq<TxPvtData>, missing: TxMissing): State
    requires EntriesOfBlock(POLICY, 1, pvt, missing).Some?
  {
    Committed(AFTER_0, 1, EntriesOfBlock(POLICY, 1, pvt, missing).value)
  }

  lemma PolicyKnowsAll(blk: uint64, pvt: seq<TxPvtData>, missing: TxMissing)
    ensures EntriesOfBlock(POLICY, blk, pvt, missing).Some?
  {
  }

  lemma Run1(pvt: seq<TxPvtData>, missing: TxMissing, ops: seq<Op>, s: State)
    requires EntriesOfBlock(POLICY, 1, pvt, missing).Some? && Run(POLICY, After1(pvt, missing), ops, s)
    ensures Run(POLICY, Initial(), [Empty(0)] + ([Commit(1, pvt, missing)] + ops), s)
  {
    RunCons(POLICY, AFTER_0, Commit(1, pvt, missing), ops, s);
    Started(POLICY, [Commit(1, pvt, missing)] + ops, s);
  }

  // ----- A purge that deletes a document something still needs

  // Transaction 0 wrote collection A; transaction 1 wrote collection B, which is missing
  const WRITES_A := [NsWrites(NS, [CollWrites(COLL_A, [])])]
  const WRITES_B := [NsWrites(NS, [CollWrites(COLL_B, [])])]
  const PRESENT_A := [TxPvtData(0, WRITES_A)]
  const MISSING_B: TxMissing := map[1 := [MissingColl(NS, COLL_B, true)]]
  const KEY_A := DataKey(NS, COLL_A, 1, 0)
  const KEY_B := DataKey(NS, COLL_B, 1, 1)
  const GAP_B := MissingKey(NS, COLL_B, 1)

  lemma OneWrite(tx: uint64, coll: Name, rwset: Bytes, pvt: seq<TxPvtData>)
    requires pvt == [TxPvtData(tx, [NsWrites(NS, [CollWrites(coll, rwset)])])]
    ensures DataEntries(1, pvt) == [DataEntry(DataKey(NS, coll, 1, tx), CollWrites(coll, rwset))]
  {
    var e := DataEntry(DataKey(NS, coll, 1, tx), CollWrites(coll, rwset));
    assert CollEntries(1, tx, NS, [CollWrites(coll, rwset)]) == [e];
    assert NsEntries(1, tx, pvt[0].nss) == [e] + NsEntries(1, tx, []);
    assert DataEntries(1, pvt) == [e] + DataEntries(1, []);
  }

  lemma SoundAfter1(entries: Entries)
    requires EntriesSound(POLICY, 1, entries)
    ensures Sound(POLICY, Committed(AFTER_0, 1, entries)) && Covered(POLICY, Committed(AFTER_0, 1, entries))
  {
    EmptySound();
    CommitKeepsSound(POLICY, AFTER_0, 1, entries);
  }

  lemma EmptySound()
    ensures Sound(POLICY, AFTER_0) && Covered(POLICY, AFTER_0)
  {
  }

  lemma GapBIsMissing()
    ensures GAP_B in MissingEntries(1, MISSING_B, true)
  {
    assert MISSING_B[1][0] == MissingColl(NS, COLL_B, true);
    assert MissingColl(NS, COLL_B, true) in MISSING_B[1];
    assert KeyOf(1, MissingColl(NS, COLL_B, true)) == GAP_B;
  }

  // A's data is in the document, B is listed for block 4, and a purge at block 3 empties the document
  ghost predicate HoldsAListsB(s: State) {
    && Sound(POLICY, s) && s.docs.Keys == {1} && s.docs[1].data.Keys == {KEY_A}
    && GAP_B in s.prio && MissingRuns.ListedIn(s.docs[1], GAP_B, 4) && Emptied(s.docs[1], 3)
  }

  lemma BlockOneOf(entries: Entries)
    requires EntriesSound(POLICY, 1, entries) && MissingRuns.OwnListed(POLICY, 1, entries)
    requires entries.data == [DataEntry(KEY_A, CollWrites(COLL_A, []))] && GAP_B in entries.elg
    ensures HoldsAListsB(Committed(AFTER_0, 1, entries))
  {
    SoundAfter1(entries);
    MapOfKeys(entries.data);
    assert KeysOf(entries.data) == {KEY_A};
    OneKeyEmptied(NewDoc(1, MapOf(entries.data), entries.expiry));
  }

  lemma BlockOne()
    ensures EntriesOfBlock(POLICY, 1, PRESENT_A, MISSING_B).Some?
    ensures HoldsAListsB(After1(PRESENT_A, MISSING_B))
  {
    PolicyKnowsAll(1, PRESENT_A, MISSING_B);
    PreparedSound(POLICY, 1, PRESENT_A, MISSING_B);
    MissingRuns.PreparedListed(POLICY, 1, PRESENT_A, MISSING_B);
    OneWrite(0, COLL_A, [], PRESENT_A);
    GapBIsMissing();
    BlockOneOf(EntriesOfBlock(POLICY, 1, PRESENT_A, MISSING_B).value);
  }

  lemma OneKeyEmptied(doc: Doc)
    requires doc.data.Keys == {KEY_A} && KeyCovered(POLICY, doc, KEY_A)
    ensures Emptied(doc, 3)
  {
    SelectedNumerically(doc, 3);
    assert 3 in doc.expiring;
    CoveredDies(POLICY, doc, KEY_A, 3);
    assert PurgedDoc(doc, 3).data == map[];
  }

  lemma DropsB(s: State)
    requires HoldsAListsB(s) && s.last == 3
    ensures Accepted(POLICY, DocOf(s.docs, 1).expiry, KEY_B) && !Expired(POLICY, KEY_B, 3)
    ensures !Accepted(POLICY, DocOf(Purged(s, 3).docs, 1).expiry, KEY_B)
  {
    PurgeThenReconcileAcceptsIff(POLICY, s, 3, KEY_B);
  }

  lemma NextEmptyBlock(s: State, blk: uint64)
    requires HoldsAListsB(s) && s.last + 1 == blk <= 3 && !s.empty
    ensures Allowed(POLICY, s, Empty(blk)) && HoldsAListsB(Apply(POLICY, s, Empty(blk)))
    ensures Apply(POLICY, s, Empty(blk)).last == blk && !Apply(POLICY, s, Empty(blk)).empty
  {
    EmptyCommit(POLICY, s, blk);
    StepKeepsSound(POLICY, s, Empty(blk));
  }

  // Blocks 0 to 3, of which only block 1 has private data
  lemma ThreeBlocks(ops: seq<Op>, s3: State, s: State)
    requires EntriesOfBlock(POLICY, 1, PRESENT_A, MISSING_B).Some?
    requires var s1 := After1(PRESENT_A, MISSING_B);
             && Allowed(POLICY, s1, Empty(2)) && Allowed(POLICY, Apply(POLICY, s1, Empty(2)), Empty(3))
             && s3 == Apply(POLICY, Apply(POLICY, s1, Empty(2)), Empty(3))
    requires Run(POLICY, s3, ops, s)
    ensures Run(POLICY, Initial(), UpToBlock3(ops), s)
  {
    var s1 := After1(PRESENT_A, MISSING_B);
    RunCons(POLICY, Apply(POLICY, s1, Empty(2)), Empty(3), ops, s);
    RunCons(POLICY, s1, Empty(2), [Empty(3)] + ops, s);
    Run1(PRESENT_A, MISSING_B, [Empty(2)] + ([Empty(3)] + ops), s);
  }

  function UpToBlock3(ops: seq<Op>): seq<Op> {
    [Empty(0)] + ([Commit(1, PRESENT_A, MISSING_B)] + ([Empty(2)] + ([Empty(3)] + ops)))
  }

  lemma AtBlock3() returns (s3: State)
    ensures HoldsAListsB(s3) && s3.last == 3 && !s3.empty
    ensures forall ops, s :: Run(POLICY, s3, ops, s) ==> Run(POLICY, Initial(), UpToBlock3(ops), s)
  {
    BlockOne();
    var s1 := After1(PRESENT_A, MISSING_B);
    NextEmptyBlock(s1, 2);
    var s2 := Apply(POLICY, s1, Empty(2));
    NextEmptyBlock(s2, 3);
    s3 := Apply(POLICY, s2, Empty(3));
    forall ops, s | Run(POLICY, s3, ops, s) ensures Run(POLICY, Initial(), UpToBlock3(ops), s) {
      ThreeBlocks(ops, s3, s);
    }
  }

  /** A purge can make a later reconciliation drop data that has not expired. */
  lemma UnexpiredDataMayBeDropped() returns (ops: seq<Op>, s: State)
    ensures Run(POLICY, Initial(), ops, s) && s.last == 3
    ensures Accepted(POLICY, DocOf(s.docs, 1).expiry, KEY_B) && !Expired(POLICY, KEY_B, 3)
    ensures !Accepted(POLICY, DocOf(Purged(s, 3).docs, 1).expiry, KEY_B)
  {
    s := AtBlock3();
    assert Run(POLICY, s, [], s);
    ops := UpToBlock3([]);
    DropsB(s);
  }

  // After the purge at block 3 the document is gone and B's entry stays
  lemma GapSurvives(s: State)
    requires HoldsAListsB(s) && s.last == 3
    ensures Purged(s, 3).docs == map[] && GAP_B in Purged(s, 3).prio
  {
    var s' := Purged(s, 3);
    assert s'.docs.Keys == {};
    if GAP_B in SelectedDead(s.docs, 3) {
      PurgeDeletesOnlyExpiredMissing(POLICY, s, 3, GAP_B);
    }
  }

  lemma NoDocsNoDead(s: State, max: uint64)
    requires s.docs == map[]
    ensures Purged(s, max).prio == s.prio
  {
    assert SelectedDead(s.docs, max) == {};
    assert s.prio - {} == s.prio;
  }

  /** So a purge at an entry's expiring block can leave the entry in the missing-data index. */
  lemma ExpiredEntryMayStay() returns (ops: seq<Op>, s: State)
    ensures Run(POLICY, Initial(), ops, s) && s.last == 4
    ensures GAP_B in Keys(Purged(s, 4)) && ExpiringBlk(POLICY, GAP_B) == Some(4)
  {
    var s3 := AtBlock3();
    GapSurvives(s3);
    var purged := Apply(POLICY, s3, Purge(3));
    EmptyCommit(POLICY, purged, 4);
    s := Apply(POLICY, purged, Empty(4));
    NoDocsNoDead(s, 4);
    RunCons(POLICY, purged, Empty(4), [], s);
    RunCons(POLICY, s3, Purge(3), [Empty(4)] + [], s);
    ops := UpToBlock3([Purge(3)] + ([Empty(4)] + []));
  }

  // ----- Two transactions of one collection reconciled together

  // Both transactions wrote collection A, and both writes are missing
  const MISSING_A: TxMissing := map[0 := [MissingColl(NS, COLL_A, true)], 1 := [MissingColl(NS, COLL_A, true)]]
  const GAP_A := MissingKey(NS, COLL_A, 1)
  const BOTH_A := [TxPvtData(0, WRITES_A), TxPvtData(1, WRITES_A)]
  const OLD_A: Blocks := map[1 := BOTH_A]
  const KEY_A1 := DataKey(NS, COLL_A, 1, 1)
  const FIRST := DataEntry(KEY_A, CollWrites(COLL_A, []))
  const SECOND := DataEntry(KEY_A1, CollWrites(COLL_A, []))

  // The document of block 1: no data, and A listed as missing for block 3
  const DOC_A := Doc(map[], map[ExpiryKey(3, 1) := ExpiryData({}, {NsColl(NS, COLL_A)})], {3})

  lemma MissingAKeys()
    ensures MissingEntries(1, MISSING_A, true).Keys == {GAP_A} && MissingEntries(1, MISSING_A, false) == map[]
  {
    var c := MissingColl(NS, COLL_A, true);
    assert MISSING_A[0][0] == c && c in MISSING_A[0] && KeyOf(1, c) == GAP_A;
    assert forall tx, d :: tx in MISSING_A && d in MISSING_A[tx] ==> d == c;
    assert MissingKeys(1, MISSING_A, true) == {GAP_A};
    assert MissingKeys(1, MISSING_A, false) == {};
  }

  lemma ExpiryOfGapA()
    ensures ExpiryEntries(POLICY, {}, {GAP_A}) == map[3 := ExpiryData({}, {NsColl(NS, COLL_A)})]
  {
    assert ExpiringBlk(POLICY, GAP_A) == Some(3);
    assert ExpiringBlocks(POLICY, {}, {GAP_A}) == {3};
    assert ExpiringAt(POLICY, 3, {}, {GAP_A}) == ExpiryData({}, {NsColl(NS, COLL_A)});
  }

  lemma DocsOfGapA(entries: Entries)
    requires entries.data == [] && entries.expiry == map[3 := ExpiryData({}, {NsColl(NS, COLL_A)})]
    ensures Committed(AFTER_0, 1, entries).docs == map[1 := DOC_A]
  {
    var doc := NewDoc(1, MapOf(entries.data), entries.expiry);
    assert doc.data == map[];
    assert doc.expiring == {3};
    assert doc.expiry.Keys == {ExpiryKey(3, 1)} && doc.expiry[ExpiryKey(3, 1)] == entries.expiry[3];
    assert doc.expiry == DOC_A.expiry;
  }

  lemma EntriesOfMissingA()
    ensures EntriesOfBlock(POLICY, 1, [], MISSING_A).Some?
    ensures var entries := EntriesOfBlock(POLICY, 1, [], MISSING_A).value;
            entries.data == [] && entries.expiry == ExpiryEntries(POLICY, {}, {GAP_A})
  {
    PolicyKnowsAll(1, [], MISSING_A);
    MissingAKeys();
    assert DataEntries(1, []) == [] && KeysOf([]) == {};
    var none: MissingMap := map[];
    assert {GAP_A} + none.Keys == {GAP_A};
  }

  lemma DocsOfMissingA()
    ensures EntriesOfBlock(POLICY, 1, [], MISSING_A).Some? && After1([], MISSING_A).docs == map[1 := DOC_A]
  {
    EntriesOfMissingA();
    ExpiryOfGapA();
    DocsOfGapA(EntriesOfBlock(POLICY, 1, [], MISSING_A).value);
  }

  lemma TwoEntries()
    ensures DataEntries(1, BOTH_A) == [FIRST, SECOND]
  {
    assert CollEntries(1, 0, NS, WRITES_A[0].colls) == [FIRST] && CollEntries(1, 1, NS, WRITES_A[0].colls) == [SECOND];
    assert NsEntries(1, 0, WRITES_A) == [FIRST] + NsEntries(1, 0, []);
    assert NsEntries(1, 1, WRITES_A) == [SECOND] + NsEntries(1, 1, []);
    assert BOTH_A[1..] == [TxPvtData(1, WRITES_A)];
    assert DataEntries(1, BOTH_A[1..]) == [SECOND] + DataEntries(1, []);
  }

  // The second entry's expiry data replaces the first's
  lemma TwoStaged(entries: seq<DataEntry>)
    requires entries == [FIRST, SECOND] && Known(POLICY, entries)
    ensures var st := Stage(POLICY, DOC_A.expiry, entries);
            && KEY_A in st.data && KEY_A1 in st.data
            && st.expiry == map[ExpiryKey(3, 1) := ExpiryData({Item(KEY_A1)}, {NsColl(NS, COLL_A)})]
  {
    assert entries[..1] == [FIRST] && [FIRST][..0] == [];
    var s0 := Stage(POLICY, DOC_A.expiry, []);
    var s1 := Stage(POLICY, DOC_A.expiry, [FIRST]);
    assert s1 == StageEntry(POLICY, DOC_A.expiry, s0, FIRST);
    var st := Stage(POLICY, DOC_A.expiry, entries);
    assert st == StageEntry(POLICY, DOC_A.expiry, s1, SECOND);
    var ek := ExpiryKey(3, 1);
    assert ExpiryKeyOf(POLICY, KEY_A) == ek && ExpiryKeyOf(POLICY, KEY_A1) == ek;
    assert {} + {Item(KEY_A1)} == {Item(KEY_A1)};
    assert st.expiry.Keys == {ek} && st.expiry[ek] == ExpiryData({Item(KEY_A1)}, {NsColl(NS, COLL_A)});
  }

  lemma ReconciledA(s: State)
    requires s.docs == map[1 := DOC_A]
    ensures AllKnown(POLICY, OLD_A)
    ensures var docs := PurgedDocs(ReconciledDocs(POLICY, s.docs, OLD_A), 3); 1 in docs && KEY_A in docs[1].data
  {
    TwoEntries();
    assert Known(POLICY, DataEntries(1, OLD_A[1]));
    TwoStaged(DataEntries(1, OLD_A[1]));
    var st := StageOf(POLICY, s.docs, 1, OLD_A[1]);
    SurvivesMerge(st);
    assert ReconciledDocs(POLICY, s.docs, OLD_A)[1] == Merge(DOC_A, st);
  }

  lemma SurvivesMerge(st: Staged)
    requires KEY_A in st.data
    requires st.expiry == map[ExpiryKey(3, 1) := ExpiryData({Item(KEY_A1)}, {NsColl(NS, COLL_A)})]
    ensures KEY_A in PurgedDoc(Merge(DOC_A, st), 3).data
  {
    var m := Merge(DOC_A, st);
    assert m.expiry == st.expiry;
    assert KEY_A !in DeadData(m.expiry, 3);
  }

  const RECONCILE_A := CommitOld(OLD_A, {})

  lemma ReconcileThenBlocks(s: State) returns (s': State)
    requires s.docs == map[1 := DOC_A] && s.last == 1 && !s.empty && s.lastDoc == Some(1)
    ensures Run(POLICY, s, [RECONCILE_A] + ([Empty(2)] + ([Empty(3)] + [])), s') && s'.last == 3
    ensures 1 in Purged(s', 3).docs && KEY_A in Purged(s', 3).docs[1].data
  {
    ReconciledA(s);
    var r := Apply(POLICY, s, RECONCILE_A);
    EmptyCommit(POLICY, r, 2);
    var r2 := Apply(POLICY, r, Empty(2));
    EmptyCommit(POLICY, r2, 3);
    s' := Apply(POLICY, r2, Empty(3));
    RunCons(POLICY, r2, Empty(3), [], s');
    RunCons(POLICY, r, Empty(2), [Empty(3)] + [], s');
    RunCons(POLICY, s, RECONCILE_A, [Empty(2)] + ([Empty(3)] + []), s');
  }

  /** Reconciling them at once leaves the first one's data in the store after the purge of its expiring block. */
  lemma ClobberedDataOutlivesPurge() returns (ops: seq<Op>, s: State)
    ensures Run(POLICY, Initial(), ops, s) && s.last == 3
    ensures 1 in Purged(s, 3).docs && KEY_A in Purged(s, 3).docs[1].data && DataExpiringBlk(POLICY, KEY_A) == Some(3)
  {
    DocsOfMissingA();
    s := ReconcileThenBlocks(After1([], MISSING_A));
    var rest := [RECONCILE_A] + ([Empty(2)] + ([Empty(3)] + []));
    Run1([], MISSING_A, rest, s);
    ops := [Empty(0)] + ([Commit(1, [], MISSING_A)] + rest);
  }

  // ----- One collection missing both eligibly and ineligibly

  // Transaction 0 misses collection A eligibly, transaction 1 ineligibly
  const MIXED_A: TxMissing := map[0 := [MissingColl(NS, COLL_A, true)], 1 := [MissingColl(NS, COLL_A, false)]]
  const EVENT_A: EventMap := map[1 := Some(map[NS := [COLL_A]])]

  lemma MixedBits()
    ensures MissingEntries(1, MIXED_A, true) == map[GAP_A := {0}] &&
        MissingEntries(1, MIXED_A, false) == map[GAP_A := {1}]
  {
    var c, d := MissingColl(NS, COLL_A, true), MissingColl(NS, COLL_A, false);
    assert MIXED_A[0] == [c] && MIXED_A[1] == [d] && KeyOf(1, c) == GAP_A && KeyOf(1, d) == GAP_A;
    assert MissingKeys(1, MIXED_A, true) == {GAP_A};
    assert MissingKeys(1, MIXED_A, false) == {GAP_A};
    assert (set tx | tx in MIXED_A && Misses(MIXED_A, tx, GAP_A, true)) == {0};
    assert (set tx | tx in MIXED_A && Misses(MIXED_A, tx, GAP_A, false)) == {1};
  }

  lemma MixedBlock()
    ensures EntriesOfBlock(POLICY, 1, [], MIXED_A).Some?
    ensures var s := After1([], MIXED_A);
            s.prio == map[GAP_A := {0}] && s.deprio == map[] && s.inelg == map[GAP_A := {1}]
  {
    PolicyKnowsAll(1, [], MIXED_A);
    MixedBits();
  }

  lemma EventNamesA(s: State)
    requires s.inelg == map[GAP_A := {1}]
    ensures Eligibility.AllNamed(IndexOf(s, EVENT_A)) == {GAP_A}
  {
    var db := IndexOf(s, EVENT_A);
    assert 1 in Eligibility.Events(db);
    assert Eligibility.InfoOf(db, 1) == map[NS := [COLL_A]];
    assert COLL_A in Eligibility.InfoOf(db, 1)[NS];
    assert GAP_A in Eligibility.Named(db, 1);
  }

  /** A conversion can overwrite a prioritized bitmap and lose its bits. */
  lemma ConversionMayLoseBits() returns (ops: seq<Op>, s: State)
    ensures Run(POLICY, Initial(), ops, s)
    ensures var db := IndexOf(s, EVENT_A);
            (GAP_A, 0) in Eligibility.AllBits(db) && (GAP_A, 0) !in Eligibility.AllBits(Eligibility.Converted(db))
  {
    MixedBlock();
    s := After1([], MIXED_A);
    Run1([], MIXED_A, [], s);
    ops := [Empty(0)] + ([Commit(1, [], MIXED_A)] + []);
    EventNamesA(s);
  }

  const LIST_1: MissingBits := {(GAP_A, 1)}

  lemma MixedReconciled(s: State)
    requires s.prio == map[GAP_A := {0}] && s.deprio == map[] && s.inelg == map[GAP_A := {1}]
    ensures AllKnown(POLICY, map[])
    ensures var s' := Reconciled(POLICY, s, map[], LIST_1);
            s'.prio == map[GAP_A := {0}] && s'.deprio == map[GAP_A := {1}] && s'.inelg == s.inelg
  {
    var bits := ReconciledBits(POLICY, s.docs, map[]);
    assert bits == {};
    assert Bits(s.prio) == {(GAP_A, 0)} && Bits(s.deprio) == {};
    assert PrioBits(s.prio, bits, LIST_1) == {(GAP_A, 0)};
    assert DeprioBits(s.prio, s.deprio, bits, LIST_1) == {(GAP_A, 1)};
    OneBit(GAP_A, 0);
    OneBit(GAP_A, 1);
  }

  lemma OneBit(k: MissingKey, tx: uint64)
    ensures FromBits({(k, tx)}) == map[k := {tx}]
  {
    assert (k, tx).0 in CollectionsOf({(k, tx)});
    assert CollectionsOf({(k, tx)}) == {k};
    assert (k, tx).1 in BitmapOf({(k, tx)}, k);
    assert BitmapOf({(k, tx)}, k) == {tx};
  }

  lemma RepeatsBit(s: State)
    requires s.prio == map[GAP_A := {0}] && s.deprio == map[GAP_A := {1}] && s.inelg == map[GAP_A := {1}]
    ensures Disjoint(s.prio, s.deprio) && !Disjoint(ConvertedState(s, EVENT_A).prio, s.deprio)
  {
    assert Bits(s.prio) == {(GAP_A, 0)} && Bits(s.deprio) == {(GAP_A, 1)};
    EventNamesA(s);
    ConvertDisjointIff(s, EVENT_A);
  }

  /** A conversion can prioritize a bit that is deprioritized already. */
  lemma ConversionMayRepeatBits() returns (ops: seq<Op>, s: State)
    ensures Run(POLICY, Initial(), ops, s) && Disjoint(s.prio, s.deprio)
    ensures !Disjoint(ConvertedState(s, EVENT_A).prio, s.deprio)
  {
    MixedBlock();
    var s1 := After1([], MIXED_A);
    MixedReconciled(s1);
    var list := CommitOld(map[], LIST_1);
    s := Apply(POLICY, s1, list);
    RunCons(POLICY, s1, list, [], s);
    Run1([], MIXED_A, [list] + [], s);
    ops := [Empty(0)] + ([Commit(1, [], MIXED_A)] + ([list] + []));
    RepeatsBit(s);
  }
}
