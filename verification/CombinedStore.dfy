/** The block cache in front of the private data store, and the store that combines the two. */
module CombinedStore {
  import opened PvtTypes
  import opened Sorting
  import opened Assembler
  import opened StoreEntries
  import opened PvtStore
  import opened Reconcile
  import opened CdbStore

  datatype Cache = Cache(last: uint64, empty: bool, entries: map<uint64, seq<DataEntry>>)

  datatype Combined = Combined(db: State, cache: Cache)

  // ----- Opening

  function Height(s: State): uint64 {
    if s.empty then 0 else Increment(s.last)
  }

  function CreateCache(last: uint64): Cache {
    Cache(last, last == 0, map[])
  }

  /** The cache is told height - 1, which wraps for an empty store. */
  function Opened(s: State): Combined {
    Combined(s, CreateCache(Decrement(Height(s))))
  }

  function NextCached(c: Cache): uint64 {
    if c.empty then 0 else Increment(c.last)
  }

  /** Both halves of an opened store expect the same next block unless only block 0 was committed. */
  lemma OpenedExpectsSameIff(s: State)
    ensures NextCached(Opened(s).cache) == NextBlock(s) <==> s.empty || s.last != 0
  {
  }

  /** A store read back from its databases never meets that exception. */
  lemma ReopenedExpectsSame(s: State)
    requires Reopened(s).Ok?
    ensures NextCached(Opened(Reopened(s).value).cache) == NextBlock(Reopened(s).value)
  {
    OpenedExpectsSameIff(Reopened(s).value);
  }

  // ----- Commit

  function CacheCommitError(c: Cache, blk: uint64, entries: Option<Entries>): Option<Error> {
    if NextCached(c) != blk then Some(IllegalCall) else if entries.None? then Some(PolicyFailed) else None
  }

  function CacheCommitted(c: Cache, blk: uint64, data: seq<DataEntry>): Cache {
    Cache(blk, false, if data == [] then c.entries else c.entries[blk := data])
  }

  function CombinedCommitted(c: Combined, blk: uint64, entries: Entries): Combined {
    Combined(Committed(c.db, blk, entries), CacheCommitted(c.cache, blk, entries.data))
  }

  // ----- Reading

  predicate Keep(btl: BtlPolicy, filter: PvtStore.Filter, latest: uint64, e: DataEntry) {
    DataExpiringBlk(btl, e.key).Some? && latest < DataExpiringBlk(btl, e.key).value && Passes(e.key, filter)
  }

  // The entries of a cached block a read may return, in the order they were written
  function Shown(es: seq<DataEntry>, btl: BtlPolicy, filter: PvtStore.Filter, latest: uint64): seq<DataEntry> {
    Sorting.Filter(es, e => Keep(btl, filter, latest, e))
  }

  predicate PolicyHas(btl: BtlPolicy, es: seq<DataEntry>) {
    forall e :: e in es ==> DataExpiringBlk(btl, e.key).Some?
  }

  function CacheRead(c: Cache, btl: BtlPolicy, blk: uint64, filter: PvtStore.Filter): Result<seq<TxPvtData>> {
    if c.empty || blk > c.last then Err(OutOfRange)
    else if blk !in c.entries then Ok([])
    else if !PolicyHas(btl, c.entries[blk]) then Err(PolicyFailed)
    else Ok(Assembled(Shown(c.entries[blk], btl, filter, c.last)))
  }

  ghost function CombinedRead(c: Combined, btl: BtlPolicy, blk: uint64,
                              filter: PvtStore.Filter): Result<seq<TxPvtData>> {
    var r := CacheRead(c.cache, btl, blk, filter);
    if r.Err? || r.value != [] then r else Read(c.db, btl, blk, filter)
  }

  // ----- What the two halves have in common

  predicate LiveAt(btl: BtlPolicy, k: DataKey, latest: uint64) {
    DataExpiringBlk(btl, k).Some? && latest < DataExpiringBlk(btl, k).value
  }

  function StoredData(docs: map<uint64, Doc>, b: uint64): map<DataKey, CollWrites> {
    if b in docs then docs[b].data else map[]
  }

  // On unexpired keys the cached entries and the document say the same
  ghost predicate Shadows(btl: BtlPolicy, data: map<DataKey, CollWrites>, stored: map<DataKey, CollWrites>,
                          latest: uint64) {
    forall k :: LiveAt(btl, k, latest) ==>
      (k in data <==> k in stored) && (k in data && k in stored ==> data[k] == stored[k])
  }

  ghost predicate CachedSound(btl: BtlPolicy, b: uint64, es: seq<DataEntry>) {
    OfBlock(b, es) && PolicyHas(btl, es)
  }

  ghost predicate HeadsAgree(c: Combined) {
    && NextCached(c.cache) == NextBlock(c.db) && !c.cache.empty
    && (c.db.empty ==> c.cache.entries == map[])
    && (!c.db.empty ==> c.cache.last == c.db.last && c.db.lastDoc == Some(c.db.last))
  }

  ghost predicate Inv(btl: BtlPolicy, c: Combined) {
    && HeadsAgree(c)
    && (forall b :: b in c.db.docs ==> DocSound(btl, b, c.db.docs[b]))
    && (forall b :: b in c.cache.entries ==>
          && b <= c.db.last && CachedSound(btl, b, c.cache.entries[b])
          && Shadows(btl, MapOf(c.cache.entries[b]), StoredData(c.db.docs, b), c.db.last))
  }

  // ----- Agreement

  function Contents(blk: uint64, pvt: seq<TxPvtData>): set<DataEntry> {
    set e | e in DataEntries(blk, pvt)
  }

  // The same error, or the same (transaction, namespace, collection, value) contents
  predicate SameAnswer(blk: uint64, a: Result<seq<TxPvtData>>, b: Result<seq<TxPvtData>>) {
    if a.Err? || b.Err? then a == b else Contents(blk, a.value) == Contents(blk, b.value)
  }

  // No key is written twice with different values
  predicate SingleValued(es: seq<DataEntry>) {
    forall i, j :: 0 <= i < |es| && 0 <= j < |es| && es[i].key == es[j].key ==> es[i].value == es[j].value
  }

  // What a read of the stored data returns
  function StoredShown(stored: map<DataKey, CollWrites>, btl: BtlPolicy, filter: PvtStore.Filter,
                       latest: uint64): set<DataEntry> {
    set k | k in stored && Keep(btl, filter, latest, DataEntry(k, stored[k])) :: DataEntry(k, stored[k])
  }

  lemma AssembledContents(blk: uint64, es: seq<DataEntry>)
    requires OfBlock(blk, es)
    ensures Contents(blk, Assembled(es)) == set e | e in es
    ensures Assembled(es) == [] <==> es == []
  {
    FlattenAssembled(blk, es);
  }

  lemma SeenContents(blk: uint64, seen: map<DataKey, CollWrites>, es: seq<DataEntry>)
    requires forall e :: e in es <==> e.key in seen && seen[e.key] == e.value
    requires forall k :: k in seen ==> k.blk == blk && k.coll == seen[k].coll
    ensures Contents(blk, Assembled(es)) == EntrySet(seen)
  {
    forall i | 0 <= i < |es| ensures es[i].key.blk == blk && es[i].key.coll == es[i].value.coll {
      assert es[i] in es;
    }
    AssembledContents(blk, es);
    assert forall e :: e in EntrySet(seen) <==> e.key in seen && seen[e.key] == e.value;
  }

  lemma VisibleIsShown(btl: BtlPolicy, doc: Doc, filter: PvtStore.Filter, latest: uint64)
    requires forall k :: k in doc.data ==> DataExpiringBlk(btl, k).Some?
    ensures EntrySet(Visible(doc, btl, filter, latest)) == StoredShown(doc.data, btl, filter, latest)
  {
    var seen := Visible(doc, btl, filter, latest);
    forall k | k in doc.data ensures k in seen <==> Keep(btl, filter, latest, DataEntry(k, doc.data[k])) {
    }
  }

  lemma DocContents(btl: BtlPolicy, doc: Doc, blk: uint64, filter: PvtStore.Filter, latest: uint64)
    requires DocSound(btl, blk, doc)
    ensures Contents(blk, Assembled(SortedEntries(Visible(doc, btl, filter, latest)))) ==
        StoredShown(doc.data, btl, filter, latest)
  {
    VisibleIsShown(btl, doc, filter, latest);
    var seen := Visible(doc, btl, filter, latest);
    SeenContents(blk, seen, SortedEntries(seen));
  }

  lemma ReadContents(btl: BtlPolicy, s: State, blk: uint64, filter: PvtStore.Filter)
    requires !s.empty && blk <= s.last && (blk in s.docs ==> DocSound(btl, blk, s.docs[blk]))
    ensures Read(s, btl, blk, filter).Ok?
    ensures Contents(blk, Read(s, btl, blk, filter).value) == StoredShown(StoredData(s.docs, blk), btl, filter, s.last)
  {
    if blk in s.docs {
      DocContents(btl, s.docs[blk], blk, filter, s.last);
    }
  }

  function Kept(es: seq<DataEntry>, btl: BtlPolicy, filter: PvtStore.Filter, latest: uint64): set<DataEntry> {
    set e | e in es && Keep(btl, filter, latest, e)
  }

  lemma CachedContents(btl: BtlPolicy, blk: uint64, es: seq<DataEntry>, filter: PvtStore.Filter, latest: uint64)
    requires CachedSound(btl, blk, es)
    ensures Contents(blk, Assembled(Shown(es, btl, filter, latest))) == Kept(es, btl, filter, latest)
    ensures Assembled(Shown(es, btl, filter, latest)) == [] <==> Shown(es, btl, filter, latest) == []
  {
    var shown := Shown(es, btl, filter, latest);
    forall i | 0 <= i < |shown| ensures shown[i].key.blk == blk && shown[i].key.coll == shown[i].value.coll {
      assert shown[i] in shown;
    }
    AssembledContents(blk, shown);
  }

  // The document holds the last entry written for a key, and nothing else that is shown
  lemma StoredIsLast(btl: BtlPolicy, es: seq<DataEntry>, stored: map<DataKey, CollWrites>, filter: PvtStore.Filter,
                     latest: uint64)
    requires Shadows(btl, MapOf(es), stored, latest)
    ensures forall e :: e in Kept(es, btl, filter, latest) ==>
        e.key in stored && DataEntry(e.key, stored[e.key]) in Kept(es, btl, filter, latest)
    ensures StoredShown(stored, btl, filter, latest) <= Kept(es, btl, filter, latest)
  {
    MapOfKeys(es);
    forall e | e in Kept(es, btl, filter, latest)
      ensures e.key in stored && DataEntry(e.key, stored[e.key]) in Kept(es, btl, filter, latest)
    {
      assert LiveAt(btl, e.key, latest) && e.key in MapOf(es);
      assert DataEntry(e.key, MapOf(es)[e.key]) in es;
    }
    forall e | e in StoredShown(stored, btl, filter, latest) ensures e in Kept(es, btl, filter, latest) {
      assert LiveAt(btl, e.key, latest) && e.key in MapOf(es);
    }
  }

  lemma ShadowsShown(btl: BtlPolicy, es: seq<DataEntry>, stored: map<DataKey, CollWrites>, filter: PvtStore.Filter,
                     latest: uint64)
    requires Shadows(btl, MapOf(es), stored, latest)
    ensures Kept(es, btl, filter, latest) == StoredShown(stored, btl, filter, latest) <==>
            SingleValued(Shown(es, btl, filter, latest))
  {
    var cached, kept := Shown(es, btl, filter, latest), StoredShown(stored, btl, filter, latest);
    StoredIsLast(btl, es, stored, filter, latest);
    assert forall e :: e in cached <==> e in Kept(es, btl, filter, latest);
    if SingleValued(cached) {
      forall e | e in cached ensures e in kept {
        var i :| 0 <= i < |cached| && cached[i] == e;
        var j :| 0 <= j < |cached| && cached[j] == DataEntry(e.key, stored[e.key]);
      }
    } else {
      var i, j :| 0 <= i < |cached| && 0 <= j < |cached| && cached[i].key == cached[j].key &&
          cached[i].value != cached[j].value;
      assert cached[i] in cached && cached[j] in cached;
      assert cached[i] !in kept || cached[j] !in kept;
    }
  }

  lemma CachedAgreesIff(btl: BtlPolicy, c: Combined, blk: uint64, filter: PvtStore.Filter)
    requires !c.db.empty && !c.cache.empty && c.cache.last == c.db.last && blk <= c.db.last
    requires blk in c.cache.entries && CachedSound(btl, blk, c.cache.entries[blk])
    requires blk in c.db.docs ==> DocSound(btl, blk, c.db.docs[blk])
    ensures SameAnswer(blk, CombinedRead(c, btl, blk, filter), Read(c.db, btl, blk, filter)) <==>
            var es := c.cache.entries[blk];
            Shown(es, btl, filter, c.db.last) == [] ||
            Kept(es, btl, filter, c.db.last) == StoredShown(StoredData(c.db.docs, blk), btl, filter, c.db.last)
  {
    CachedAnswer(btl, c, blk, filter);
    if Shown(c.cache.entries[blk], btl, filter, c.db.last) != [] {
      CachedContents(btl, blk, c.cache.entries[blk], filter, c.db.last);
      ReadContents(btl, c.db, blk, filter);
    }
  }

  // A cached block with something to show is answered from the cache alone
  lemma CachedAnswer(btl: BtlPolicy, c: Combined, blk: uint64, filter: PvtStore.Filter)
    requires !c.cache.empty && c.cache.last == c.db.last && blk <= c.db.last
    requires blk in c.cache.entries && CachedSound(btl, blk, c.cache.entries[blk])
    ensures var shown := Shown(c.cache.entries[blk], btl, filter, c.db.last);
            CombinedRead(c, btl, blk, filter) == if shown == [] then Read(c.db, btl, blk, filter)
                else Ok(Assembled(shown))
  {
    CachedContents(btl, blk, c.cache.entries[blk], filter, c.db.last);
  }

  /**
    The combined store answers every read as the database alone would, exactly when the block is not cached
    or its visible entries write no key twice with different values.
   */
  lemma CombinedAgreesIff(btl: BtlPolicy, c: Combined, blk: uint64, filter: PvtStore.Filter)
    requires Inv(btl, c)
    ensures SameAnswer(blk, CombinedRead(c, btl, blk, filter), Read(c.db, btl, blk, filter)) <==>
            (blk in c.cache.entries ==> SingleValued(Shown(c.cache.entries[blk], btl, filter, c.db.last)))
  {
    if blk in c.cache.entries {
      CachedAgreesIff(btl, c, blk, filter);
      ShadowsShown(btl, c.cache.entries[blk], StoredData(c.db.docs, blk), filter, c.db.last);
    }
  }

  /**
    The cache answers up to its last block: nothing for a block it does not hold, and for one it holds exactly the
    entries that have not expired and that the filter names.
   */
  lemma CachedShowsIff(btl: BtlPolicy, c: Cache, blk: uint64, filter: PvtStore.Filter, e: DataEntry)
    requires blk in c.entries ==> CachedSound(btl, blk, c.entries[blk])
    ensures CacheRead(c, btl, blk, filter).Err? ==> CacheRead(c, btl, blk, filter) == Err(OutOfRange)
    ensures CacheRead(c, btl, blk, filter).Ok? <==> !c.empty && blk <= c.last
    ensures CacheRead(c, btl, blk, filter).Ok? && blk !in c.entries ==> CacheRead(c, btl, blk, filter) == Ok([])
    ensures CacheRead(c, btl, blk, filter).Ok? && blk in c.entries ==>
            (e in Contents(blk, CacheRead(c, btl, blk, filter).value) <==>
            && e in c.entries[blk]
            && btl(e.key.ns, e.key.coll, blk).Some? && c.last < btl(e.key.ns, e.key.coll, blk).value
            && (filter.Some? ==> NsColl(e.key.ns, e.key.coll) in filter.value))
  {
    if blk in c.entries {
      CachedContents(btl, blk, c.entries[blk], filter, c.last);
    }
  }

  // The entries a filter names
  function Restricted(es: set<DataEntry>, names: set<NsColl>): set<DataEntry> {
    set e | e in es && NsColl(e.key.ns, e.key.coll) in names
  }

  lemma StoredRestricts(btl: BtlPolicy, s: State, blk: uint64, names: set<NsColl>)
    requires !s.empty && blk <= s.last && (blk in s.docs ==> DocSound(btl, blk, s.docs[blk]))
    ensures Read(s, btl, blk, None).Ok? && Read(s, btl, blk, Some(names)).Ok?
    ensures Contents(blk, Read(s, btl, blk, Some(names)).value) ==
            Restricted(Contents(blk, Read(s, btl, blk, None).value), names)
  {
    ReadContents(btl, s, blk, None);
    ReadContents(btl, s, blk, Some(names));
  }

  lemma KeptRestricts(btl: BtlPolicy, es: seq<DataEntry>, latest: uint64, names: set<NsColl>)
    ensures Kept(es, btl, Some(names), latest) == Restricted(Kept(es, btl, None, latest), names)
  {
  }

  /** Through the cache too, a filtered read is the unfiltered one without what the filter does not name. */
  lemma CombinedFilterRestricts(btl: BtlPolicy, c: Combined, blk: uint64, names: set<NsColl>)
    requires Inv(btl, c) && !c.db.empty && blk <= c.db.last
    ensures CombinedRead(c, btl, blk, None).Ok? && CombinedRead(c, btl, blk, Some(names)).Ok?
    ensures Contents(blk, CombinedRead(c, btl, blk, Some(names)).value) ==
            Restricted(Contents(blk, CombinedRead(c, btl, blk, None).value), names)
  {
    StoredRestricts(btl, c.db, blk, names);
    if blk in c.cache.entries {
      CombinedContents(btl, c, blk, None);
      CombinedContents(btl, c, blk, Some(names));
      KeptRestricts(btl, c.cache.entries[blk], c.db.last, names);
    }
  }

  // A cached block is read with all its visible entries, from the cache or, when there are none, from the database
  lemma CombinedContents(btl: BtlPolicy, c: Combined, blk: uint64, filter: PvtStore.Filter)
    requires Inv(btl, c) && !c.db.empty && blk in c.cache.entries
    ensures CombinedRead(c, btl, blk, filter).Ok?
    ensures Contents(blk, CombinedRead(c, btl, blk, filter).value) == Kept(c.cache.entries[blk], btl, filter, c.db.last)
  {
    var es := c.cache.entries[blk];
    CachedAnswer(btl, c, blk, filter);
    CachedContents(btl, blk, es, filter, c.db.last);
    if Shown(es, btl, filter, c.db.last) == [] {
      ReadContents(btl, c.db, blk, filter);
      StoredIsLast(btl, es, StoredData(c.db.docs, blk), filter, c.db.last);
      assert forall e :: e in Kept(es, btl, filter, c.db.last) <==> e in Shown(es, btl, filter, c.db.last);
    }
  }

  // ----- Runs

  datatype Op =
    | Commit(blk: uint64, pvt: seq<TxPvtData>, missing: TxMissing)
    | Purge(max: uint64)
    | Evict(blks: set<uint64>)

  // Commits that succeed in both halves; purges up to a committed block
  predicate Allowed(btl: BtlPolicy, c: Combined, op: Op) {
    match op
    case Commit(blk, pvt, missing) =>
      var entries := EntriesOfBlock(btl, blk, pvt, missing);
      CacheCommitError(c.cache, blk, entries).None? && CommitError(c.db, blk, entries).None?
    case Purge(max) => !c.db.empty && max <= c.db.last
    case Evict(_) => true
  }

  function Apply(btl: BtlPolicy, c: Combined, op: Op): Combined
    requires Allowed(btl, c, op)
  {
    match op
    case Commit(blk, pvt, missing) => CombinedCommitted(c, blk, EntriesOfBlock(btl, blk, pvt, missing).value)
    case Purge(max) => c.(db := Purged(c.db, max))
    case Evict(blks) => c.(cache := c.cache.(entries := c.cache.entries - blks))
  }

  ghost predicate Run(btl: BtlPolicy, c: Combined, ops: seq<Op>, c': Combined)
    decreases |ops|
  {
    if ops == [] then c' == c else Allowed(btl, c, ops[0]) && Run(btl, Apply(btl, c, ops[0]), ops[1..], c')
  }

  lemma CommitKeepsInv(btl: BtlPolicy, c: Combined, blk: uint64, entries: Entries)
    requires Inv(btl, c) && EntriesSound(btl, blk, entries) && PolicyHas(btl, entries.data)
    requires CacheCommitError(c.cache, blk, Some(entries)).None? && CommitError(c.db, blk, Some(entries)).None?
    ensures Inv(btl, CombinedCommitted(c, blk, entries))
  {
    var doc := NewDoc(blk, MapOf(entries.data), entries.expiry);
    forall b | b in CombinedCommitted(c, blk, entries).cache.entries
      ensures b <= blk && CachedSound(btl, b, CombinedCommitted(c, blk, entries).cache.entries[b])
      ensures Shadows(btl, MapOf(CombinedCommitted(c, blk, entries).cache.entries[b]),
                      StoredData(CombinedCommitted(c, blk, entries).db.docs, b), blk)
    {
      NewBlockShadows(btl, c, blk, entries.data, doc, b);
    }
  }

  lemma NewBlockShadows(btl: BtlPolicy, c: Combined, blk: uint64, data: seq<DataEntry>, doc: Doc, b: uint64)
    requires Inv(btl, c) && NextBlock(c.db) == blk && (c.db.empty || c.db.last <= MAX_INT64)
    requires CachedSound(btl, blk, data) && doc.data == MapOf(data)
    requires b in CacheCommitted(c.cache, blk, data).entries
    ensures b <= blk && CachedSound(btl, b, CacheCommitted(c.cache, blk, data).entries[b])
    ensures var es := CacheCommitted(c.cache, blk, data).entries[b];
            && Shadows(btl, MapOf(es), StoredData(c.db.docs[blk := doc], b), blk)
            && (data == [] ==> Shadows(btl, MapOf(es), StoredData(c.db.docs, b), blk))
  {
    if b != blk || data == [] {
      assert b in c.cache.entries && b <= c.db.last < blk;
      ShadowsLater(btl, MapOf(c.cache.entries[b]), StoredData(c.db.docs, b), c.db.last, blk);
    }
  }

  lemma ShadowsLater(btl: BtlPolicy, data: map<DataKey, CollWrites>, stored: map<DataKey, CollWrites>, latest: uint64,
                     later: uint64)
    requires Shadows(btl, data, stored, latest) && latest <= later
    ensures Shadows(btl, data, stored, later)
  {
    assert forall k :: LiveAt(btl, k, later) ==> LiveAt(btl, k, latest);
  }

  lemma PurgeKeepsInv(btl: BtlPolicy, c: Combined, max: uint64)
    requires Inv(btl, c) && !c.db.empty && max <= c.db.last
    ensures Inv(btl, c.(db := Purged(c.db, max)))
  {
    var docs' := Purged(c.db, max).docs;
    forall b | b in docs' ensures DocSound(btl, b, docs'[b]) {
      assert DocSound(btl, b, c.db.docs[b]);
    }
    forall b | b in c.cache.entries
      ensures Shadows(btl, MapOf(c.cache.entries[b]), StoredData(docs', b), c.db.last)
    {
      PurgeKeepsLive(btl, c.db.docs, b, max, c.db.last);
    }
  }

  lemma NothingLeft<K, V>(m: map<K, V>, dead: set<K>)
    requires m - dead == map[]
    ensures m.Keys <= dead
  {
    assert forall k :: k in m ==> k in m - dead || k in dead;
  }

  lemma PurgeKeepsLive(btl: BtlPolicy, docs: map<uint64, Doc>, b: uint64, max: uint64, latest: uint64)
    requires (b in docs ==> DocSound(btl, b, docs[b])) && max <= latest
    ensures Shadows(btl, StoredData(docs, b), StoredData(PurgedDocs(docs, max), b), latest)
  {
    if b in docs {
      DeadIsExpired(btl, b, docs[b], max);
      if Emptied(docs[b], max) {
        NothingLeft(docs[b].data, DeadData(docs[b].expiry, max));
      }
    }
  }

  lemma StepKeepsInv(btl: BtlPolicy, c: Combined, op: Op)
    requires Inv(btl, c) && Allowed(btl, c, op)
    ensures Inv(btl, Apply(btl, c, op))
  {
    match op
    case Commit(blk, pvt, missing) =>
      PreparedSound(btl, blk, pvt, missing);
      PreparedKnown(btl, blk, pvt, missing);
      CommitKeepsInv(btl, c, blk, EntriesOfBlock(btl, blk, pvt, missing).value);
    case Purge(max) =>
      PurgeKeepsInv(btl, c, max);
    case Evict(_) =>
  }

  lemma PreparedKnown(btl: BtlPolicy, blk: uint64, pvt: seq<TxPvtData>, missing: TxMissing)
    requires EntriesOfBlock(btl, blk, pvt, missing).Some?
    ensures PolicyHas(btl, EntriesOfBlock(btl, blk, pvt, missing).value.data)
  {
    var data := DataEntries(blk, pvt);
    assert forall e :: e in data ==> e.key in KeysOf(data);
  }

  lemma {:induction false} RunKeepsInv(btl: BtlPolicy, c: Combined, ops: seq<Op>, c': Combined)
    requires Inv(btl, c) && Run(btl, c, ops, c')
    ensures Inv(btl, c')
    decreases |ops|
  {
    if ops != [] {
      StepKeepsInv(btl, c, ops[0]);
      RunKeepsInv(btl, Apply(btl, c, ops[0]), ops[1..], c');
    }
  }

  // What a database holds when it is opened
  ghost predicate Openable(btl: BtlPolicy, s: State) {
    && (forall b :: b in s.docs ==> DocSound(btl, b, s.docs[b]))
    && (s.empty || (s.last != 0 && s.lastDoc == Some(s.last)))
  }

  lemma OpenedInv(btl: BtlPolicy, s: State)
    requires Openable(btl, s)
    ensures Inv(btl, Opened(s))
  {
  }

  /** Whatever a reachable database held when its process stopped, it can be opened. */
  lemma ReopenedOpenable(btl: BtlPolicy, s: State)
    requires Sound(btl, s) && Reopened(s).Ok?
    ensures Openable(btl, Reopened(s).value)
  {
  }

  /** The combined store refines the database store, and both halves keep expecting the same next block. */
  lemma CombinedRefines(btl: BtlPolicy, s: State, ops: seq<Op>, c: Combined, blk: uint64, filter: PvtStore.Filter)
    requires Openable(btl, s) && Run(btl, Opened(s), ops, c)
    ensures NextCached(c.cache) == NextBlock(c.db)
    ensures SameAnswer(blk, CombinedRead(c, btl, blk, filter), Read(c.db, btl, blk, filter)) <==>
            (blk in c.cache.entries ==> SingleValued(Shown(c.cache.entries[blk], btl, filter, c.db.last)))
  {
    OpenedInv(btl, s);
    RunKeepsInv(btl, Opened(s), ops, c);
    CombinedAgreesIff(btl, c, blk, filter);
  }

  // ----- Old blocks reach only the database

  function StagedFor(btl: BtlPolicy, docs: map<uint64, Doc>, blocks: Blocks, b: uint64): map<DataKey, CollWrites>
    requires AllKnown(btl, blocks)
  {
    if b in blocks then StageOf(btl, docs, b, blocks[b]).data else map[]
  }

  lemma ReconciledData(btl: BtlPolicy, docs: map<uint64, Doc>, blocks: Blocks, b: uint64)
    requires AllKnown(btl, blocks) && (b in docs ==> DocSound(btl, b, docs[b]))
    ensures StoredData(ReconciledDocs(btl, docs, blocks), b) == StoredData(docs, b) + StagedFor(btl, docs, blocks, b)
    ensures b in ReconciledDocs(btl, docs, blocks) ==> DocSound(btl, b, ReconciledDocs(btl, docs, blocks)[b])
  {
    if b in blocks {
      EntriesAreOfBlock(b, blocks[b]);
      MergeSound(btl, b, DocOf(docs, b), DataEntries(b, blocks[b]));
    }
  }

  // Adding the data changes nothing a read shows
  predicate AddsNothing(added: map<DataKey, CollWrites>, stored: map<DataKey, CollWrites>, btl: BtlPolicy,
                        filter: PvtStore.Filter, latest: uint64) {
    forall k :: k in added && Keep(btl, filter, latest, DataEntry(k, added[k])) ==> k in stored && stored[k] == added[k]
  }

  lemma ShownWithIff(stored: map<DataKey, CollWrites>, added: map<DataKey, CollWrites>, btl: BtlPolicy,
                     filter: PvtStore.Filter, latest: uint64)
    ensures StoredShown(stored + added, btl, filter, latest) == StoredShown(stored, btl, filter, latest) <==>
            AddsNothing(added, stored, btl, filter, latest)
  {
    var a, b := StoredShown(stored + added, btl, filter, latest), StoredShown(stored, btl, filter, latest);
    if a == b {
      forall k | k in added && Keep(btl, filter, latest, DataEntry(k, added[k]))
        ensures k in stored && stored[k] == added[k]
      {
        assert DataEntry(k, (stored + added)[k]) in a;
      }
    }
    if AddsNothing(added, stored, btl, filter, latest) {
      forall e ensures e in a <==> e in b {
      }
    }
  }

  /**
    After reconciling old blocks a cached block with something to show is still answered from the cache, which is
    right exactly when the reconciliation added nothing to what the read shows.
   */
  lemma AgreesAfterOldBlocksIff(btl: BtlPolicy, c: Combined, blocks: Blocks, unreconciled: MissingBits, blk: uint64,
                                filter: PvtStore.Filter)
    requires Inv(btl, c) && AllKnown(btl, blocks) && OldBlocks(c.db, blocks)
    requires blk in c.cache.entries ==> SingleValued(Shown(c.cache.entries[blk], btl, filter, c.db.last))
    ensures var c' := c.(db := Reconciled(btl, c.db, blocks, unreconciled));
            SameAnswer(blk, CombinedRead(c', btl, blk, filter), Read(c'.db, btl, blk, filter)) <==>
            (blk in c.cache.entries && Shown(c.cache.entries[blk], btl, filter, c.db.last) != [] ==>
               AddsNothing(StagedFor(btl, c.db.docs, blocks, blk), StoredData(c.db.docs, blk), btl, filter, c.db.last))
  {
    if blk in c.cache.entries {
      var c' := c.(db := Reconciled(btl, c.db, blocks, unreconciled));
      ReconciledData(btl, c.db.docs, blocks, blk);
      CachedAgreesIff(btl, c', blk, filter);
      ShadowsShown(btl, c.cache.entries[blk], StoredData(c.db.docs, blk), filter, c.db.last);
      ShownWithIff(StoredData(c.db.docs, blk), StagedFor(btl, c.db.docs, blocks, blk), btl, filter, c.db.last);
    }
  }

  // ----- The stores themselves

  class CacheStore {
    const btl: BtlPolicy
    var lastCommittedBlock: uint64
    var empty: bool
    var cache: map<uint64, seq<DataEntry>>

    ghost function View(): Cache
      reads this
    {
      Cache(lastCommittedBlock, empty, cache)
    }

    constructor (btl: BtlPolicy, last: uint64)
      ensures this.btl == btl && View() == CreateCache(last)
    {
      this.btl, lastCommittedBlock, empty, cache := btl, last, last == 0, map[];
    }

    method NextBlockNum() returns (n: uint64)
      ensures n == NextCached(View())
    {
      n := if empty then 0 else Increment(lastCommittedBlock);
    }

    method Commit(blk: uint64, pvt: seq<TxPvtData>, missing: TxMissing) returns (err: Option<Error>)
      modifies this
      ensures var entries := EntriesOfBlock(btl, blk, pvt, missing);
              err == CacheCommitError(old(View()), blk, entries) &&
              View() == if err.None? then CacheCommitted(old(View()), blk, entries.value.data) else old(View())
      ensures err.None? ==> lastCommittedBlock == blk && !empty
      ensures err.None? ==> cache == if DataEntries(blk, pvt) == [] then old(cache)
                                     else old(cache)[blk := DataEntries(blk, pvt)]
    {
      var expected := NextBlockNum();
      if expected != blk {
        return Some(IllegalCall);
      }
      var entries := PrepareStoreEntries(btl, blk, pvt, missing);
      if entries.None? {
        return Some(PolicyFailed);
      }
      if |entries.value.data| > 0 {
        cache := cache[blk := entries.value.data];
      }
      lastCommittedBlock, empty := blk, false;
      return None;
    }

    // The cache may drop any blocks at any time
    method Evict(blks: set<uint64>)
      modifies this
      ensures View() == old(View()).(entries := old(View()).entries - blks)
    {
      cache := cache - blks;
    }

    method GetPvtDataByBlockNum(blk: uint64, filter: PvtStore.Filter) returns (r: Result<seq<TxPvtData>>)
      ensures r == CacheRead(View(), btl, blk, filter)
    {
      if empty || blk > lastCommittedBlock {
        return Err(OutOfRange);
      }
      if blk !in cache {
        return Ok([]);
      }
      r := ReadCached(btl, cache[blk], filter, lastCommittedBlock);
    }
  }

  method ReadCached(btl: BtlPolicy, es: seq<DataEntry>, filter: PvtStore.Filter, latest: uint64)
    returns (r: Result<seq<TxPvtData>>)
    ensures r == if PolicyHas(btl, es) then Ok(Assembled(Shown(es, btl, filter, latest))) else Err(PolicyFailed)
  {
    for i := 0 to |es|
      invariant forall j :: 0 <= j < i ==> DataExpiringBlk(btl, es[j].key).Some?
    {
      if DataExpiringBlk(btl, es[i].key).None? {
        assert es[i] in es;
        return Err(PolicyFailed);
      }
    }
    var pvt := AssembleBlock(es, e => Keep(btl, filter, latest, e));
    return Ok(pvt);
  }

  class PvtDataStore {
    const btl: BtlPolicy
    const db: Store
    const cache: CacheStore

    ghost predicate Valid()
      reads this
    {
      db.btl == btl && cache.btl == btl
    }

    ghost function View(): Combined
      reads this, db, cache
    {
      Combined(db.View(), cache.View())
    }

    constructor (btl: BtlPolicy, db: Store)
      requires db.btl == btl
      ensures Valid() && this.btl == btl && this.db == db && fresh(cache) && View() == Opened(db.View())
    {
      this.btl, this.db := btl, db;
      var height: uint64 := if db.empty then 0 else Increment(db.lastCommittedBlock);
      cache := new CacheStore(btl, Decrement(height));
    }

    // The cache commits first, so a commit the database refuses leaves the two apart
    method Commit(blk: uint64, pvt: seq<TxPvtData>, missing: TxMissing) returns (err: Option<Error>)
      requires Valid()
      modifies db, cache
      ensures var entries := EntriesOfBlock(btl, blk, pvt, missing);
              var cached := CacheCommitError(old(View()).cache, blk, entries);
              if cached.Some? then err == cached && View() == old(View())
              else err == CommitError(old(View()).db, blk, entries) &&
                   View() == Combined(if err.None? then Committed(old(View()).db, blk, entries.value)
                                      else old(View()).db,
                                      CacheCommitted(old(View()).cache, blk, entries.value.data))
    {
      err := cache.Commit(blk, pvt, missing);
      if err.None? {
        err := db.Commit(blk, pvt, missing);
      }
    }

    method GetPvtDataByBlockNum(blk: uint64, filter: PvtStore.Filter) returns (r: Result<seq<TxPvtData>>)
      requires Valid()
      ensures r == CombinedRead(View(), btl, blk, filter)
    {
      r := cache.GetPvtDataByBlockNum(blk, filter);
      if r.Err? || |r.value| > 0 {
        return;
      }
      r := db.GetPvtDataByBlockNum(blk, filter);
    }
  }
}
