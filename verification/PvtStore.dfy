/**
  The private data store: one document per block with its data, its expiry entries and the index of
  expiring blocks, beside the missing-data index. Databases are maps and batches are atomic.
 */
module PvtStore {
  import opened Digits
  import opened PvtTypes
  import opened KeyEncoding
  import opened Sorting
  import opened Assembler
  import opened StoreEntries

  datatype Doc = Doc(data: map<DataKey, CollWrites>, expiry: map<ExpiryKey, ExpiryData>, expiring: set<uint64>)

  // lastDoc is the stored last-committed-block document; last and empty are the store's own fields
  datatype State = State(
    last: uint64, empty: bool, lastDoc: Option<uint64>,
    docs: map<uint64, Doc>, prio: MissingMap, deprio: MissingMap, inelg: MissingMap)

  type Filter = Option<set<NsColl>>

  const MAX_INT64: nat := 0x7fff_ffff_ffff_ffff

  function NextBlock(s: State): uint64 {
    if s.empty then 0 else Increment(s.last)
  }

  // ----- Commit

  function MapOf(entries: seq<DataEntry>): map<DataKey, CollWrites> {
    if entries == [] then map[]
    else MapOf(entries[..|entries| - 1])[entries[|entries| - 1].key := entries[|entries| - 1].value]
  }

  lemma {:induction false} MapOfKeys(entries: seq<DataEntry>)
    ensures MapOf(entries).Keys == KeysOf(entries)
    ensures forall k :: k in MapOf(entries) ==> DataEntry(k, MapOf(entries)[k]) in entries
  {
    if entries != [] {
      var last := |entries| - 1;
      MapOfKeys(entries[..last]);
      KeysOfSnoc(entries, last);
      assert entries[..last + 1] == entries;
    }
  }

  function NewDoc(blk: uint64, data: map<DataKey, CollWrites>, expiry: ExpiryMap): Doc {
    Doc(data, map ek | ek in (set e | e in expiry :: ExpiryKey(e, blk)) :: expiry[ek.expiring], expiry.Keys)
  }

  function CommitError(s: State, blk: uint64, entries: Option<Entries>): Option<Error> {
    if NextBlock(s) != blk then Some(IllegalCall)
    else if entries.None? then Some(PolicyFailed)
    else if s.lastDoc.Some? && s.lastDoc.value > MAX_INT64 then Some(LastBlockUnreadable)
    else None
  }

  function Committed(s: State, blk: uint64, entries: Entries): State {
    State(blk, false, Some(blk),
          if entries.data == [] && entries.expiry == map[] then s.docs
          else s.docs[blk := NewDoc(blk, MapOf(entries.data), entries.expiry)],
          s.prio + entries.elg, s.deprio, s.inelg + entries.inelg)
  }

  // ----- Reading a block

  predicate Passes(k: DataKey, filter: Filter) {
    filter.None? || NsColl(k.ns, k.coll) in filter.value
  }

  predicate Expired(btl: BtlPolicy, k: DataKey, latest: uint64)
    requires DataExpiringBlk(btl, k).Some?
  {
    latest >= DataExpiringBlk(btl, k).value
  }

  // The entries of a document a read may return
  function Visible(doc: Doc, btl: BtlPolicy, filter: Filter, latest: uint64): map<DataKey, CollWrites>
    requires forall k :: k in doc.data ==> DataExpiringBlk(btl, k).Some?
  {
    map k | k in doc.data && !Expired(btl, k, latest) && Passes(k, filter) :: doc.data[k]
  }

  ghost function SortedEntries(data: map<DataKey, CollWrites>): (es: seq<DataEntry>)
    ensures KeysSorted(es)
    ensures forall e :: e in es <==> e.key in data && data[e.key] == e.value
  {
    DataKeysSeparate();
    EntriesOfListing(data, Listing(DATA_KEY_ORDER, data.Keys));
    EntriesOf(data, Listing(DATA_KEY_ORDER, data.Keys))
  }

  // The stored keys are the hexadecimal encodings, which sort as the encodings do
  const DATA_KEY_ORDER: DataKey -> seq<nat> := (k: DataKey) => EncodeDataKey(k)

  lemma DataKeysSeparate()
    ensures Injective(DATA_KEY_ORDER)
  {
    forall a, b | DATA_KEY_ORDER(a) == DATA_KEY_ORDER(b) ensures a == b {
      DataKeysInjective(a, b);
    }
  }

  function EntriesOf(data: map<DataKey, CollWrites>, ks: seq<DataKey>): (es: seq<DataEntry>)
    requires forall k :: k in ks ==> k in data
    ensures |es| == |ks| && forall i :: 0 <= i < |ks| ==> es[i] == DataEntry(ks[i], data[ks[i]])
  {
    if ks == [] then [] else [DataEntry(ks[0], data[ks[0]])] + EntriesOf(data, ks[1..])
  }

  lemma EntriesOfListing(data: map<DataKey, CollWrites>, ks: seq<DataKey>)
    requires Lists(DATA_KEY_ORDER, ks, data.Keys)
    ensures KeysSorted(EntriesOf(data, ks))
    ensures forall e :: e in EntriesOf(data, ks) <==> e.key in data && data[e.key] == e.value
  {
    var es := EntriesOf(data, ks);
    forall i, j | 0 <= i < j < |es| ensures Less(EncodeDataKey(es[i].key), EncodeDataKey(es[j].key)) {
      assert Less(DATA_KEY_ORDER(ks[i]), DATA_KEY_ORDER(ks[j]));
    }
    forall e: DataEntry | e.key in data && data[e.key] == e.value ensures e in es {
      var i :| 0 <= i < |ks| && ks[i] == e.key;
      assert es[i] == e;
    }
  }

  /** A read is a function of the visible entries alone. */
  ghost function ReadDoc(doc: Doc, btl: BtlPolicy, filter: Filter, latest: uint64): Result<seq<TxPvtData>> {
    if exists k :: k in doc.data && DataExpiringBlk(btl, k).None? then Err(PolicyFailed)
    else Ok(Assembled(SortedEntries(Visible(doc, btl, filter, latest))))
  }

  ghost function Read(s: State, btl: BtlPolicy, blk: uint64, filter: Filter): Result<seq<TxPvtData>> {
    if s.empty || blk > s.last then Err(OutOfRange)
    else if blk !in s.docs then Ok([])
    else ReadDoc(s.docs[blk], btl, filter, s.last)
  }

  // ----- Purge

  function KeyOfPresent(blk: uint64, p: NsCollTx): DataKey {
    DataKey(p.ns, p.coll, blk, p.tx)
  }

  function KeyOfMissing(blk: uint64, c: NsColl): MissingKey {
    MissingKey(c.ns, c.coll, blk)
  }

  // The keys an expiry entry stands for
  function DerivedData(ek: ExpiryKey, d: ExpiryData): set<DataKey> {
    set p | p in d.present :: KeyOfPresent(ek.committing, p)
  }

  function DerivedMissing(ek: ExpiryKey, d: ExpiryData): set<MissingKey> {
    set c | c in d.missing :: KeyOfMissing(ek.committing, c)
  }

  function DeadData(expiry: map<ExpiryKey, ExpiryData>, max: uint64): set<DataKey> {
    set ek, p | ek in expiry && ek.expiring <= max && p in expiry[ek].present :: KeyOfPresent(ek.committing, p)
  }

  function DeadMissing(expiry: map<ExpiryKey, ExpiryData>, max: uint64): set<MissingKey> {
    set ek, c | ek in expiry && ek.expiring <= max && c in expiry[ek].missing :: KeyOfMissing(ek.committing, c)
  }

  function LaterBlocks(expiry: map<ExpiryKey, ExpiryData>, max: uint64): set<uint64> {
    set ek | ek in expiry && ek.expiring > max :: ek.expiring
  }

  // The expired entries themselves stay in the document
  function PurgedDoc(doc: Doc, max: uint64): Doc {
    Doc(doc.data - DeadData(doc.expiry, max), doc.expiry, LaterBlocks(doc.expiry, max))
  }

  /** The index query: some listed block's identifier is at most the purge block's, as strings. */
  predicate Selected(doc: Doc, max: uint64) {
    exists e :: e in doc.expiring && Leq(BlockNumberToKey(e), BlockNumberToKey(max))
  }

  lemma SelectedNumerically(doc: Doc, max: uint64)
    ensures Selected(doc, max) <==> exists e :: e in doc.expiring && e <= max
  {
    forall e: uint64 ensures Leq(BlockNumberToKey(e), BlockNumberToKey(max)) <==> e <= max {
      BlockKeyOrder(e, max);
    }
  }

  predicate Emptied(doc: Doc, max: uint64) {
    Selected(doc, max) && PurgedDoc(doc, max).data == map[]
  }

  function SelectedDead(docs: map<uint64, Doc>, max: uint64): set<MissingKey> {
    set b, k | b in docs && Selected(docs[b], max) && k in DeadMissing(docs[b].expiry, max) :: k
  }

  function PurgedDocs(docs: map<uint64, Doc>, max: uint64): map<uint64, Doc> {
    map b | b in docs && !Emptied(docs[b], max) :: if Selected(docs[b], max) then PurgedDoc(docs[b], max) else docs[b]
  }

  function Purged(s: State, max: uint64): State {
    var dead := SelectedDead(s.docs, max);
    s.(docs := PurgedDocs(s.docs, max), prio := s.prio - dead, deprio := s.deprio - dead, inelg := s.inelg - dead)
  }

  // ----- What every reachable document satisfies

  predicate DataSound(btl: BtlPolicy, blk: uint64, data: map<DataKey, CollWrites>) {
    forall k :: k in data ==> k.blk == blk && k.coll == data[k].coll && DataExpiringBlk(btl, k).Some?
  }

  // An expiry entry lists only what really expires at its block
  predicate EntrySound(btl: BtlPolicy, blk: uint64, ek: ExpiryKey, d: ExpiryData) {
    && ek.committing == blk && !NeverExpires(ek.expiring)
    && (forall p :: p in d.present ==> btl(p.ns, p.coll, blk) == Some(ek.expiring))
    && (forall c :: c in d.missing ==> btl(c.ns, c.coll, blk) == Some(ek.expiring))
  }

  predicate DocSound(btl: BtlPolicy, blk: uint64, doc: Doc) {
    DataSound(btl, blk, doc.data) && forall ek :: ek in doc.expiry ==> EntrySound(btl, blk, ek, doc.expiry[ek])
  }

  ghost predicate Sound(btl: BtlPolicy, s: State) {
    && (forall b :: b in s.docs ==> DocSound(btl, b, s.docs[b]))
    && (s.empty ==> s.docs == map[] && s.last == 0)
    && s.lastDoc == (if s.empty then None else Some(s.last))
    && (forall b :: b in s.docs ==> b <= s.last)
  }

  // Expirable data is listed for its expiring block, and that block is in the index
  predicate KeyCovered(btl: BtlPolicy, doc: Doc, k: DataKey)
    requires DataExpiringBlk(btl, k).Some?
  {
    var e := DataExpiringBlk(btl, k).value;
    !NeverExpires(e) ==>
      && ExpiryKey(e, k.blk) in doc.expiry
      && NsCollTx(k.ns, k.coll, k.tx) in doc.expiry[ExpiryKey(e, k.blk)].present
      && e in doc.expiring
  }

  predicate DocCovered(btl: BtlPolicy, blk: uint64, doc: Doc)
    requires DataSound(btl, blk, doc.data)
  {
    forall k :: k in doc.data ==> KeyCovered(btl, doc, k)
  }

  ghost predicate Covered(btl: BtlPolicy, s: State)
    requires Sound(btl, s)
  {
    forall b :: b in s.docs ==> DocCovered(btl, b, s.docs[b])
  }

  lemma DeadIsExpired(btl: BtlPolicy, blk: uint64, doc: Doc, max: uint64)
    requires DocSound(btl, blk, doc)
    ensures forall k :: k in DeadData(doc.expiry, max) ==>
        DataExpiringBlk(btl, k).Some? && DataExpiringBlk(btl, k).value <= max
    ensures forall k :: k in DeadMissing(doc.expiry, max) ==>
        k.blk == blk && ExpiringBlk(btl, k).Some? && ExpiringBlk(btl, k).value <= max
  {
    forall k | k in DeadData(doc.expiry, max)
      ensures DataExpiringBlk(btl, k).Some? && DataExpiringBlk(btl, k).value <= max
    {
      var ek, p :| ek in doc.expiry && ek.expiring <= max && p in doc.expiry[ek].present &&
          KeyOfPresent(ek.committing, p) == k;
      assert EntrySound(btl, blk, ek, doc.expiry[ek]);
    }
    forall k | k in DeadMissing(doc.expiry, max)
      ensures k.blk == blk && ExpiringBlk(btl, k).Some? && ExpiringBlk(btl, k).value <= max
    {
      var ek, c :| ek in doc.expiry && ek.expiring <= max && c in doc.expiry[ek].missing &&
          KeyOfMissing(ek.committing, c) == k;
      assert EntrySound(btl, blk, ek, doc.expiry[ek]);
    }
  }

  lemma PurgedDocVisible(btl: BtlPolicy, blk: uint64, doc: Doc, max: uint64, filter: Filter, latest: uint64)
    requires DocSound(btl, blk, doc) && max <= latest
    ensures DocSound(btl, blk, PurgedDoc(doc, max))
    ensures Visible(PurgedDoc(doc, max), btl, filter, latest) == Visible(doc, btl, filter, latest)
  {
    DeadIsExpired(btl, blk, doc, max);
  }

  /** Purging up to a committed block changes no read, whatever the block and filter. */
  lemma PurgeInvisible(btl: BtlPolicy, s: State, max: uint64, blk: uint64, filter: Filter)
    requires Sound(btl, s) && max <= s.last
    ensures Read(Purged(s, max), btl, blk, filter) == Read(s, btl, blk, filter)
  {
    if !s.empty && blk <= s.last && blk in s.docs {
      var doc := s.docs[blk];
      PurgedDocVisible(btl, blk, doc, max, filter, s.last);
      if Emptied(doc, max) {
        assert Visible(doc, btl, filter, s.last) == map[];
        EmptyRead();
      }
    }
  }

  lemma EmptyRead()
    ensures Assembled(SortedEntries(map[])) == []
  {
    var es := SortedEntries(map[]);
    if es != [] {
      HasElement(es);
    }
  }

  lemma HasElement<T(!new)>(s: seq<T>)
    requires s != []
    ensures exists x :: x in s
  {
    assert s[0] in s;
  }

  lemma CoveredDies(btl: BtlPolicy, doc: Doc, k: DataKey, max: uint64)
    requires DataExpiringBlk(btl, k).Some? && KeyCovered(btl, doc, k)
    requires DataExpiringBlk(btl, k).value <= max && !NeverExpires(DataExpiringBlk(btl, k).value)
    ensures k in DeadData(doc.expiry, max)
  {
    assert k == KeyOfPresent(k.blk, NsCollTx(k.ns, k.coll, k.tx));
  }

  /** After a purge no stored data expires at or before the purge block. */
  lemma PurgeLeavesNothingExpired(btl: BtlPolicy, s: State, max: uint64, b: uint64, k: DataKey)
    requires Sound(btl, s) && Covered(btl, s) && max < MAX_UINT64
    requires b in Purged(s, max).docs && k in Purged(s, max).docs[b].data
    ensures DataExpiringBlk(btl, k).Some? && DataExpiringBlk(btl, k).value > max
  {
    var doc := s.docs[b];
    assert KeyCovered(btl, doc, k);
    SelectedNumerically(doc, max);
    var e := DataExpiringBlk(btl, k).value;
    if e <= max {
      CoveredDies(btl, doc, k, max);
    }
  }

  lemma PurgeKeepsSound(btl: BtlPolicy, s: State, max: uint64)
    requires Sound(btl, s)
    ensures Sound(btl, Purged(s, max))
    ensures Covered(btl, s) ==> Covered(btl, Purged(s, max))
  {
    var s' := Purged(s, max);
    assert s.docs == map[] ==> s'.docs == map[];
    forall b | b in s'.docs ensures DocSound(btl, b, s'.docs[b]) {
      assert DocSound(btl, b, s.docs[b]);
    }
    if Covered(btl, s) {
      forall b | b in s'.docs ensures DocCovered(btl, b, s'.docs[b]) {
        PurgeKeepsCovered(btl, b, s.docs[b], max);
      }
    }
  }

  lemma PurgeKeepsCovered(btl: BtlPolicy, b: uint64, doc: Doc, max: uint64)
    requires DocSound(btl, b, doc) && DocCovered(btl, b, doc)
    ensures DocCovered(btl, b, PurgedDoc(doc, max))
  {
    var doc' := PurgedDoc(doc, max);
    forall k | k in doc'.data ensures KeyCovered(btl, doc', k) {
      assert KeyCovered(btl, doc, k);
      var e := DataExpiringBlk(btl, k).value;
      if !NeverExpires(e) {
        if e <= max {
          CoveredDies(btl, doc, k, max);
        } else {
          assert ExpiryKey(e, b).expiring in doc'.expiring;
        }
      }
    }
  }

  lemma {:induction false} CollEntriesOfBlock(blk: uint64, tx: uint64, ns: Name, colls: seq<CollWrites>)
    ensures OfBlock(blk, CollEntries(blk, tx, ns, colls))
  {
    if colls != [] {
      CollEntriesOfBlock(blk, tx, ns, colls[1..]);
    }
  }

  lemma {:induction false} NsEntriesOfBlock(blk: uint64, tx: uint64, nss: seq<NsWrites>)
    ensures OfBlock(blk, NsEntries(blk, tx, nss))
  {
    if nss != [] {
      CollEntriesOfBlock(blk, tx, nss[0].ns, nss[0].colls);
      NsEntriesOfBlock(blk, tx, nss[1..]);
    }
  }

  lemma {:induction false} EntriesAreOfBlock(blk: uint64, pvt: seq<TxPvtData>)
    ensures OfBlock(blk, DataEntries(blk, pvt))
  {
    if pvt != [] {
      NsEntriesOfBlock(blk, pvt[0].tx, pvt[0].nss);
      EntriesAreOfBlock(blk, pvt[1..]);
    }
  }

  // What the fresh document of a block says
  ghost predicate EntriesSound(btl: BtlPolicy, blk: uint64, entries: Entries) {
    var doc := NewDoc(blk, MapOf(entries.data), entries.expiry);
    && DocSound(btl, blk, doc) && DocCovered(btl, blk, doc)
    && OfBlock(blk, entries.data)
    && NoEmptyBitmap(entries.elg) && NoEmptyBitmap(entries.inelg)
    && (forall k :: k in entries.elg || k in entries.inelg ==> k.blk == blk && ExpiringBlk(btl, k).Some?)
  }

  lemma NewDocSound(btl: BtlPolicy, blk: uint64, entries: seq<DataEntry>, missing: set<MissingKey>)
    requires OfBlock(blk, entries) && PolicyKnows(btl, KeysOf(entries), missing)
    requires forall k :: k in missing ==> k.blk == blk
    ensures var doc := NewDoc(blk, MapOf(entries), ExpiryEntries(btl, KeysOf(entries), missing));
            DocSound(btl, blk, doc) && DocCovered(btl, blk, doc)
  {
    var expiry := ExpiryEntries(btl, KeysOf(entries), missing);
    var doc := NewDoc(blk, MapOf(entries), expiry);
    MapOfKeys(entries);
    assert DataSound(btl, blk, doc.data);
    forall ek | ek in doc.expiry ensures EntrySound(btl, blk, ek, doc.expiry[ek]) {
      assert doc.expiry[ek] == ExpiringAt(btl, ek.expiring, KeysOf(entries), missing);
    }
    forall k | k in doc.data ensures KeyCovered(btl, doc, k) {
      var e := DataExpiringBlk(btl, k).value;
      if !NeverExpires(e) {
        assert e in expiry;
        assert NsCollTx(k.ns, k.coll, k.tx) in expiry[e].present;
        assert ExpiryKey(e, blk) in doc.expiry;
      }
    }
  }

  /** The entries prepared for a block are sound: expiry entries list exactly what expires, all of it. */
  lemma PreparedSound(btl: BtlPolicy, blk: uint64, pvt: seq<TxPvtData>, missing: TxMissing)
    requires EntriesOfBlock(btl, blk, pvt, missing).Some?
    ensures EntriesSound(btl, blk, EntriesOfBlock(btl, blk, pvt, missing).value)
  {
    var entries := EntriesOfBlock(btl, blk, pvt, missing).value;
    EntriesAreOfBlock(blk, pvt);
    MissingEntriesBits(blk, missing, true);
    MissingEntriesBits(blk, missing, false);
    assert forall k :: k in entries.elg.Keys + entries.inelg.Keys ==> k.blk == blk;
    NewDocSound(btl, blk, entries.data, entries.elg.Keys + entries.inelg.Keys);
  }

  lemma CommitKeepsSound(btl: BtlPolicy, s: State, blk: uint64, entries: Entries)
    requires Sound(btl, s) && CommitError(s, blk, Some(entries)).None? && EntriesSound(btl, blk, entries)
    ensures Sound(btl, Committed(s, blk, entries))
    ensures Covered(btl, s) ==> Covered(btl, Committed(s, blk, entries))
  {
    var doc := NewDoc(blk, MapOf(entries.data), entries.expiry);
    NewDocKeepsSound(btl, s, Committed(s, blk, entries), blk, doc);
  }

  lemma NewDocKeepsSound(btl: BtlPolicy, s: State, s': State, blk: uint64, doc: Doc)
    requires Sound(btl, s) && NextBlock(s) == blk && (s.lastDoc.Some? ==> s.lastDoc.value <= MAX_INT64)
    requires s'.last == blk && !s'.empty && s'.lastDoc == Some(blk)
    requires s'.docs == s.docs || s'.docs == s.docs[blk := doc]
    requires DocSound(btl, blk, doc) && DocCovered(btl, blk, doc)
    ensures Sound(btl, s') && (Covered(btl, s) ==> Covered(btl, s'))
  {
    assert forall b :: b in s.docs ==> b <= blk;
  }

  /** A block read right after its commit is its unexpired data, the last write of a key winning. */
  lemma ReadAfterCommit(btl: BtlPolicy, s: State, blk: uint64, entries: Entries, filter: Filter)
    requires Sound(btl, s) && CommitError(s, blk, Some(entries)).None? && EntriesSound(btl, blk, entries)
    ensures Read(Committed(s, blk, entries), btl, blk, filter) ==
            ReadDoc(Doc(MapOf(entries.data), map[], {}), btl, filter, blk)
  {
    MapOfKeys(entries.data);
    NotYetStored(btl, s, blk);
    var bare := Doc(MapOf(entries.data), map[], {});
    if blk in Committed(s, blk, entries).docs {
      SameDataSameRead(NewDoc(blk, MapOf(entries.data), entries.expiry), bare, btl, filter, blk);
    } else {
      NoDataReadsEmpty(bare, btl, filter, blk);
    }
  }

  lemma SameDataSameRead(a: Doc, b: Doc, btl: BtlPolicy, filter: Filter, latest: uint64)
    requires a.data == b.data
    ensures ReadDoc(a, btl, filter, latest) == ReadDoc(b, btl, filter, latest)
  {
  }

  lemma NoDataReadsEmpty(doc: Doc, btl: BtlPolicy, filter: Filter, latest: uint64)
    requires doc.data == map[]
    ensures ReadDoc(doc, btl, filter, latest) == Ok([])
  {
    assert Visible(doc, btl, filter, latest) == map[];
    EmptyRead();
  }

  lemma NotYetStored(btl: BtlPolicy, s: State, blk: uint64)
    requires Sound(btl, s) && NextBlock(s) == blk && (s.lastDoc.Some? ==> s.lastDoc.value <= MAX_INT64)
    ensures blk !in s.docs
  {
  }

  // ----- Reopening

  function Initial(): State {
    State(0, true, None, map[], map[], map[], map[])
  }

  /** A store opened on the databases of s: block 0 as the last committed block reads as none. */
  function Reopened(s: State): Result<State> {
    var v := if s.lastDoc.None? then 0 else s.lastDoc.value;
    if v > MAX_INT64 then Err(LastBlockUnreadable) else Ok(s.(last := v, empty := v == 0))
  }

  /** Reopening is invisible except when block 0 is the last committed block. */
  lemma ReopenInvisibleIff(btl: BtlPolicy, s: State)
    requires Sound(btl, s) && s.last <= MAX_INT64
    ensures Reopened(s) == Ok(s) <==> s.empty || s.last != 0
    ensures !s.empty && s.last == 0 ==> Reopened(s).Ok? && NextBlock(Reopened(s).value) == 0 && NextBlock(s) == 1
  {
  }
}
