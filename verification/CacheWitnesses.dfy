/** Runs that show where the cache in front of the private data store answers differently from the database. */
module CacheWitnesses {
  import opened PvtTypes
  import opened Assembler
  import opened StoreEntries
  import opened PvtStore
  import opened Reconcile
  import opened CombinedStore
  import opened Witnesses

  lemma StepThenRun(c: Combined, op: CombinedStore.Op, ops: seq<CombinedStore.Op>, c': Combined)
    requires CombinedStore.Allowed(POLICY, c, op)
    requires CombinedStore.Run(POLICY, CombinedStore.Apply(POLICY, c, op), ops, c')
    ensures CombinedStore.Run(POLICY, c, [op] + ops, c')
  {
    assert ([op] + ops)[1..] == ops;
  }

  // ----- One key written twice

  const ONE := DataEntry(DataKey(NS, COLL_A, 0, 0), CollWrites(COLL_A, [1]))
  const TWO := DataEntry(DataKey(NS, COLL_A, 0, 0), CollWrites(COLL_A, [2]))
  const TWICE := [TxPvtData(0, [NsWrites(NS, [CollWrites(COLL_A, [1]), CollWrites(COLL_A, [2])])])]

  lemma TwiceEntries()
    ensures DataEntries(0, TWICE) == [ONE, TWO]
  {
    var colls := TWICE[0].nss[0].colls;
    assert colls[1..] == [CollWrites(COLL_A, [2])];
    assert CollEntries(0, 0, NS, colls[1..]) == [TWO] + CollEntries(0, 0, NS, []);
    assert CollEntries(0, 0, NS, colls) == [ONE, TWO];
    assert NsEntries(0, 0, TWICE[0].nss) == [ONE, TWO] + NsEntries(0, 0, []);
    assert DataEntries(0, TWICE) == [ONE, TWO] + DataEntries(0, []);
  }

  lemma BothShown(latest: uint64)
    requires latest < 2
    ensures !SingleValued(Shown([ONE, TWO], POLICY, None, latest))
  {
    var shown := Shown([ONE, TWO], POLICY, None, latest);
    assert ONE in [ONE, TWO] && TWO in [ONE, TWO];
    assert Keep(POLICY, None, latest, ONE) && Keep(POLICY, None, latest, TWO);
    var i :| 0 <= i < |shown| && shown[i] == ONE;
    var j :| 0 <= j < |shown| && shown[j] == TWO;
    assert shown[i].key == shown[j].key && shown[i].value != shown[j].value;
  }

  /** A block that writes a key twice is read from the cache with both values, from the database with the last. */
  lemma TwiceWrittenReadsDiffer() returns (ops: seq<CombinedStore.Op>, c: Combined)
    ensures Openable(POLICY, Initial()) && CombinedStore.Run(POLICY, Opened(Initial()), ops, c)
    ensures !SameAnswer(0, CombinedRead(c, POLICY, 0, None), Read(c.db, POLICY, 0, None))
  {
    var op := CombinedStore.Commit(0, TWICE, map[]);
    PolicyKnowsAll(0, TWICE, map[]);
    c := CombinedStore.Apply(POLICY, Opened(Initial()), op);
    StepThenRun(Opened(Initial()), op, [], c);
    ops := [op] + [];
    TwiceEntries();
    BothShown(0);
    CombinedRefines(POLICY, Initial(), ops, c, 0, None);
  }

  // ----- A cached block reconciled

  const OLD_B: Blocks := map[1 := [TxPvtData(1, WRITES_B)]]
  const ENTRY_A := DataEntry(KEY_A, CollWrites(COLL_A, []))
  const ENTRY_B := DataEntry(KEY_B, CollWrites(COLL_B, []))

  // The store after blocks 0 and 1, block 1 cached
  lemma TwoBlocks() returns (ops: seq<CombinedStore.Op>, c: Combined)
    ensures CombinedStore.Run(POLICY, Opened(Initial()), ops, c)
    ensures EntriesOfBlock(POLICY, 1, PRESENT_A, MISSING_B).Some? && c.db == After1(PRESENT_A, MISSING_B)
    ensures c.cache.entries == map[1 := [ENTRY_A]]
  {
    var op0, op1 := CombinedStore.Commit(0, [], map[]), CombinedStore.Commit(1, PRESENT_A, MISSING_B);
    EmptyEntries(POLICY, 0);
    PolicyKnowsAll(1, PRESENT_A, MISSING_B);
    OneWrite(0, COLL_A, [], PRESENT_A);
    var c0 := CombinedStore.Apply(POLICY, Opened(Initial()), op0);
    assert c0 == Combined(AFTER_0, Cache(0, false, map[]));
    c := CombinedStore.Apply(POLICY, c0, op1);
    StepThenRun(c0, op1, [], c);
    StepThenRun(Opened(Initial()), op0, [op1] + [], c);
    ops := [op0] + ([op1] + []);
  }

  lemma BAdded(s: State)
    requires HoldsAListsB(s)
    ensures AllKnown(POLICY, OLD_B)
    ensures !AddsNothing(StagedFor(POLICY, s.docs, OLD_B, 1), StoredData(s.docs, 1), POLICY, None, 1)
  {
    OneWrite(1, COLL_B, [], OLD_B[1]);
    var entries := DataEntries(1, OLD_B[1]);
    assert entries[0] == ENTRY_B && Known(POLICY, entries);
    StagedData(POLICY, s.docs[1].expiry, entries);
    assert Accepted(POLICY, s.docs[1].expiry, entries[0].key);
    var staged := StagedFor(POLICY, s.docs, OLD_B, 1);
    assert KEY_B in staged && Keep(POLICY, None, 1, DataEntry(KEY_B, staged[KEY_B]));
    assert KEY_B !in StoredData(s.docs, 1);
  }

  lemma OnlyAShown()
    ensures var shown := Shown([ENTRY_A], POLICY, None, 1); shown != [] && SingleValued(shown)
  {
    var shown := Shown([ENTRY_A], POLICY, None, 1);
    assert ENTRY_A in [ENTRY_A] && Keep(POLICY, None, 1, ENTRY_A);
    assert ENTRY_A in shown;
    forall k | 0 <= k < |shown| ensures shown[k] == ENTRY_A {
      assert shown[k] in shown;
    }
  }

  lemma StaleB(c: Combined)
    requires CombinedStore.Inv(POLICY, c) && HoldsAListsB(c.db) && c.db.last == 1 && !c.db.empty
    requires c.cache.entries == map[1 := [ENTRY_A]]
    ensures AllKnown(POLICY, OLD_B) && OldBlocks(c.db, OLD_B)
    ensures var c' := c.(db := Reconciled(POLICY, c.db, OLD_B, {}));
            !SameAnswer(1, CombinedRead(c', POLICY, 1, None), Read(c'.db, POLICY, 1, None))
  {
    BAdded(c.db);
    OnlyAShown();
    AgreesAfterOldBlocksIff(POLICY, c, OLD_B, {}, 1, None);
  }

  lemma TwoBlocksInv(ops: seq<CombinedStore.Op>, c: Combined)
    requires CombinedStore.Run(POLICY, Opened(Initial()), ops, c)
    ensures CombinedStore.Inv(POLICY, c)
  {
    OpenedInv(POLICY, Initial());
    CombinedStore.RunKeepsInv(POLICY, Opened(Initial()), ops, c);
  }

  /** Data reconciled for a cached block is not in what a read of the block returns. */
  lemma ReconciledBlockReadsStale() returns (ops: seq<CombinedStore.Op>, c: Combined)
    ensures CombinedStore.Run(POLICY, Opened(Initial()), ops, c) && AllKnown(POLICY, OLD_B) && OldBlocks(c.db, OLD_B)
    ensures var c' := c.(db := Reconciled(POLICY, c.db, OLD_B, {}));
            !SameAnswer(1, CombinedRead(c', POLICY, 1, None), Read(c'.db, POLICY, 1, None))
  {
    ops, c := TwoBlocks();
    BlockOne();
    TwoBlocksInv(ops, c);
    StaleB(c);
  }
}
