/** The in-memory transient store: three caches that index each other and together hold a set of records. */
module TransientStore {
  import opened PvtTypes
  import opened KeyEncoding
  import opened Sorting
  import opened TransientIndex

  datatype Record = Record(txid: Name, uuid: Name, height: uint64)

  type Records = map<Record, Bytes>

  // ----- What the operations do to the set of records

  function PurgedByTxids(records: Records, txids: set<Name>): Records {
    map r | r in records && r.txid !in txids :: records[r]
  }

  function PurgedBelow(records: Records, max: uint64): Records {
    map r | r in records && r.height >= max :: records[r]
  }

  // The lowest height of a record, or none when there are no records
  predicate IsMinHeight(records: Records, min: Option<uint64>) {
    match min
    case None => records == map[]
    case Some(h) => (exists r :: r in records && r.height == h) && forall r :: r in records ==> h <= r.height
  }

  // ----- Keys of the record cache

  function KeyOf(r: Record): Bytes {
    TransientKey(r.txid, r.uuid, r.height)
  }

  function HeightOf(key: Bytes): Option<uint64> {
    if SplitTransientKey(key).None? then None else Some(SplitTransientKey(key).value.1)
  }

  lemma KeyHeight(r: Record)
    ensures HeightOf(KeyOf(r)) == Some(r.height)
  {
    TransientKeyRoundTrip(r.txid, r.uuid, r.height);
  }

  lemma KeysDiffer(a: Record, b: Record)
    requires a.txid == b.txid && KeyOf(a) == KeyOf(b)
    ensures a == b
  {
    TransientKeyRoundTrip(a.txid, a.uuid, a.height);
    TransientKeyRoundTrip(b.txid, b.uuid, b.height);
  }

  type RWSets = map<Bytes, Bytes>

  // The keys are those of records of the transaction
  ghost predicate KeysOfRecords(txid: Name, m: RWSets, records: Records) {
    forall key :: key in m ==> exists r :: r in records && r.txid == txid && KeyOf(r) == key
  }

  ghost predicate RecordsHeld(txid: Name, m: RWSets, records: Records) {
    forall r :: r in records && r.txid == txid ==> KeyOf(r) in m && m[KeyOf(r)] == records[r]
  }

  // One transaction's entry of the record cache
  ghost predicate HoldsTx(txid: Name, m: RWSets, records: Records) {
    KeysOfRecords(txid, m, records) && RecordsHeld(txid, m, records)
  }

  ghost predicate CacheHolds(cache: map<Name, RWSets>, records: Records) {
    && (forall t :: t in cache ==> HoldsTx(t, cache[t], records))
    && (forall r :: r in records ==> r.txid in cache)
  }

  function TxHeights(records: Records): set<(Name, uint64)> {
    set r | r in records :: (r.txid, r.height)
  }

  function HeightTxs(records: Records): set<(uint64, Name)> {
    set r | r in records :: (r.height, r.txid)
  }

  const TXID_ORDER: Name -> seq<nat> := (t: Name) => t
  const HEIGHT_ORDER: uint64 -> seq<nat> := (h: uint64) => [h]

  lemma OrdersSeparate()
    ensures Injective(TXID_ORDER) && Injective(HEIGHT_ORDER)
  {
    forall a, b | HEIGHT_ORDER(a) == HEIGHT_ORDER(b) ensures a == b {
      assert HEIGHT_ORDER(a)[0] == HEIGHT_ORDER(b)[0];
    }
  }

  // ----- How the caches follow the records

  function LoadSets(cache: map<Name, RWSets>, t: Name): RWSets {
    if t in cache then cache[t] else map[]
  }

  lemma LoadHolds(cache: map<Name, RWSets>, records: Records, t: Name)
    requires CacheHolds(cache, records)
    ensures HoldsTx(t, LoadSets(cache, t), records)
  {
  }

  lemma PersistHoldsTx(m: RWSets, records: Records, r: Record, v: Bytes)
    requires HoldsTx(r.txid, m, records)
    ensures HoldsTx(r.txid, m[KeyOf(r) := v], records[r := v])
  {
    var m', records' := m[KeyOf(r) := v], records[r := v];
    forall x | x in records' && x.txid == r.txid ensures KeyOf(x) in m' && m'[KeyOf(x)] == records'[x] {
      if KeyOf(x) == KeyOf(r) {
        KeysDiffer(x, r);
      }
    }
    forall key | key in m' ensures exists x :: x in records' && x.txid == r.txid && KeyOf(x) == key {
      if key == KeyOf(r) {
        assert r in records';
      } else {
        var x :| x in records && x.txid == r.txid && KeyOf(x) == key;
        assert x in records';
      }
    }
  }

  // The two agree on the records of a transaction
  ghost predicate SameFor(records: Records, records': Records, t: Name) {
    forall r: Record :: r.txid == t ==>
      (r in records <==> r in records') && (r in records ==> records[r] == records'[r])
  }

  // One transaction's entry changes along with its records
  lemma SetHoldsTx(cache: map<Name, RWSets>, records: Records, t: Name, m: RWSets, records': Records)
    requires CacheHolds(cache, records) && HoldsTx(t, m, records')
    requires forall x :: x != t ==> SameFor(records, records', x)
    ensures CacheHolds(cache[t := m], records')
  {
    forall x | x in cache && x != t ensures HoldsTx(x, cache[x], records') {
      SameRecordsHold(x, cache[x], records, records');
    }
    forall r | r in records' ensures r.txid in cache[t := m] {
      assert r.txid != t ==> SameFor(records, records', r.txid);
    }
  }

  lemma PersistHolds(cache: map<Name, RWSets>, records: Records, r: Record, v: Bytes)
    requires CacheHolds(cache, records)
    ensures CacheHolds(cache[r.txid := LoadSets(cache, r.txid)[KeyOf(r) := v]], records[r := v])
  {
    LoadHolds(cache, records, r.txid);
    PersistHoldsTx(LoadSets(cache, r.txid), records, r, v);
    var records' := records[r := v];
    forall x | x != r.txid ensures SameFor(records, records', x) {
      PersistElsewhere(records, r, v, x);
    }
    SetHoldsTx(cache, records, r.txid, LoadSets(cache, r.txid)[KeyOf(r) := v], records');
  }

  lemma PersistElsewhere(records: Records, r: Record, v: Bytes, x: Name)
    requires x != r.txid
    ensures SameFor(records, records[r := v], x)
  {
  }

  lemma DropEmpty(cache: map<Name, RWSets>, records: Records, t: Name)
    requires CacheHolds(cache, records) && t in cache && cache[t] == map[]
    ensures CacheHolds(cache - {t}, records)
  {
    forall r | r in records ensures r.txid in cache - {t} {
      assert HoldsTx(r.txid, cache[r.txid], records);
    }
  }

  lemma SameRecordsHold(t: Name, m: RWSets, records: Records, records': Records)
    requires HoldsTx(t, m, records)
    requires SameFor(records, records', t)
    ensures HoldsTx(t, m, records')
  {
    forall key | key in m ensures exists x :: x in records' && x.txid == t && KeyOf(x) == key {
      var x :| x in records && x.txid == t && KeyOf(x) == key;
      assert x in records';
    }
  }

  lemma PurgeTxidsHolds(cache: map<Name, RWSets>, records: Records, txids: set<Name>)
    requires CacheHolds(cache, records)
    ensures CacheHolds(cache - txids, PurgedByTxids(records, txids))
  {
    forall t | t in cache && t !in txids ensures HoldsTx(t, cache[t], PurgedByTxids(records, txids)) {
      SameRecordsHold(t, cache[t], records, PurgedByTxids(records, txids));
    }
  }

  type Decoder = Bytes -> Option<uint64>

  predicate Below(height: Decoder, key: Bytes, max: uint64) {
    height(key).Some? && height(key).value < max
  }

  // What deleting the keys below a height leaves
  function KeptSets(height: Decoder, m: RWSets, max: uint64): RWSets {
    map key | key in m && !Below(height, key, max) :: m[key]
  }

  function KeptOf(height: Decoder, m: RWSets, keys: set<Bytes>, max: uint64): RWSets {
    map key | key in m && !(key in keys && Below(height, key, max)) :: m[key]
  }

  lemma KeptNext(height: Decoder, m: RWSets, keys: set<Bytes>, key: Bytes, max: uint64)
    ensures KeptOf(height, m, keys + {key}, max) ==
            if Below(height, key, max) then KeptOf(height, m, keys, max) - {key} else KeptOf(height, m, keys, max)
  {
  }

  lemma KeptAll(height: Decoder, m: RWSets, keys: set<Bytes>, max: uint64)
    requires m.Keys <= keys
    ensures KeptOf(height, m, keys, max) == KeptSets(height, m, max)
  {
  }

  const HEIGHT_OF: Decoder := (key: Bytes) => HeightOf(key)

  ghost predicate Decodes(height: Decoder) {
    forall r: Record :: height(KeyOf(r)) == Some(r.height)
  }

  lemma HeightOfDecodes()
    ensures Decodes(HEIGHT_OF)
  {
    forall r: Record ensures HEIGHT_OF(KeyOf(r)) == Some(r.height) {
      KeyHeight(r);
    }
  }

  lemma PurgeBelowHoldsTx(height: Decoder, t: Name, m: RWSets, records: Records, max: uint64)
    requires HoldsTx(t, m, records) && Decodes(height)
    ensures HoldsTx(t, KeptSets(height, m, max), PurgedBelow(records, max))
    ensures AllDecode(height, m.Keys)
  {
    var m', records' := KeptSets(height, m, max), PurgedBelow(records, max);
    forall key | key in m
      ensures height(key).Some? && (key in m' ==> exists x :: x in records' && x.txid == t && KeyOf(x) == key)
    {
      var x :| x in records && x.txid == t && KeyOf(x) == key;
      assert key in m' ==> x in records';
    }
  }

  function PurgedOf(records: Records, txids: set<Name>, max: uint64): Records {
    map r | r in records && !(r.txid in txids && r.height < max) :: records[r]
  }

  lemma PurgedOfNext(records: Records, txids: set<Name>, t: Name, max: uint64)
    ensures PurgedOf(records, txids + {t}, max) == PurgedOf(PurgedOf(records, txids, max), {t}, max)
  {
  }

  lemma PurgedOfHoldsTx(height: Decoder, t: Name, m: RWSets, records: Records, max: uint64)
    requires HoldsTx(t, m, records) && Decodes(height)
    ensures HoldsTx(t, KeptSets(height, m, max), PurgedOf(records, {t}, max))
  {
    PurgeBelowHoldsTx(height, t, m, records, max);
    SameRecordsHold(t, KeptSets(height, m, max), PurgedBelow(records, max), PurgedOf(records, {t}, max));
  }

  predicate AllDecode(height: Decoder, keys: set<Bytes>) {
    forall key :: key in keys ==> height(key).Some?
  }

  // Deletes the keys below the height; a key that does not decode is an error
  method DeleteBelow(height: Decoder, m: RWSets, max: uint64) returns (ok: bool, m': RWSets)
    ensures ok <==> AllDecode(height, m.Keys)
    ensures ok ==> m' == KeptSets(height, m, max)
  {
    m' := m;
    var keys := Elements(m.Keys);
    assert Range(keys) == m.Keys;
    assert m == KeptOf(height, m, Range(keys[..0]), max);
    for i := 0 to |keys|
      invariant AllDecode(height, Range(keys[..i]))
      invariant m' == KeptOf(height, m, Range(keys[..i]), max)
    {
      RangeNext(keys, i);
      var h := height(keys[i]);
      if h.None? {
        return false, m';
      }
      KeptNext(height, m, Range(keys[..i]), keys[i], max);
      if h.value < max {
        m' := m' - {keys[i]};
      }
    }
    RangeWhole(keys);
    KeptAll(height, m, Range(keys), max);
    ok := true;
  }

  lemma PurgedOfElsewhere(records: Records, t: Name, max: uint64, x: Name)
    requires x != t
    ensures SameFor(records, PurgedOf(records, {t}, max), x)
  {
  }

  // No empty entry is left for any of the transactions
  ghost predicate NoneEmpty(cache: map<Name, RWSets>, ts: set<Name>) {
    forall t :: t in ts && t in cache ==> cache[t] != map[]
  }

  lemma NoneEmptyNext(cache: map<Name, RWSets>, ts: set<Name>, t: Name, m: RWSets)
    requires NoneEmpty(cache, ts)
    ensures m != map[] ==> NoneEmpty(cache[t := m], ts + {t})
    ensures NoneEmpty(cache[t := m] - {t}, ts + {t})
  {
  }

  method PurgeSets(height: Decoder, cache: map<Name, RWSets>, txids: seq<Name>, max: uint64, ghost records: Records)
    returns (ok: bool, cache': map<Name, RWSets>)
    requires CacheHolds(cache, records) && Decodes(height)
    ensures ok && CacheHolds(cache', PurgedOf(records, Range(txids), max))
    ensures NoneEmpty(cache', Range(txids))
  {
    cache' := cache;
    ghost var left := records;
    assert PurgedOf(records, Range(txids[..0]), max) == records;
    for i := 0 to |txids|
      invariant left == PurgedOf(records, Range(txids[..i]), max)
      invariant CacheHolds(cache', left)
      invariant NoneEmpty(cache', Range(txids[..i]))
    {
      RangeNext(txids, i);
      var t := txids[i];
      PurgedOfNext(records, Range(txids[..i]), t, max);
      LoadHolds(cache', left, t);
      PurgeBelowHoldsTx(height, t, LoadSets(cache', t), left, max);
      PurgedOfHoldsTx(height, t, LoadSets(cache', t), left, max);
      var decoded, m := DeleteBelow(height, LoadSets(cache', t), max);
      if !decoded {
        return false, cache';
      }
      forall x | x != t ensures SameFor(left, PurgedOf(left, {t}, max), x) {
        PurgedOfElsewhere(left, t, max, x);
      }
      SetHoldsTx(cache', left, t, m, PurgedOf(left, {t}, max));
      NoneEmptyNext(cache', Range(txids[..i]), t, m);
      cache' := cache'[t := m];
      left := PurgedOf(left, {t}, max);
      if |m| == 0 {
        DropEmpty(cache', left, t);
        cache' := cache' - {t};
      }
    }
    RangeWhole(txids);
    ok := true;
  }

  // ----- How the indexes follow the records

  lemma PersistPairs(records: Records, r: Record, v: Bytes)
    ensures TxHeights(records[r := v]) == TxHeights(records) + {(r.txid, r.height)}
    ensures HeightTxs(records[r := v]) == HeightTxs(records) + {(r.height, r.txid)}
  {
    var records' := records[r := v];
    assert r in records' && forall x :: x in records ==> x in records';
    assert forall p :: p in TxHeights(records) ==> p in TxHeights(records');
    assert forall p :: p in HeightTxs(records) ==> p in HeightTxs(records');
  }

  lemma PurgeTxidsPairs(records: Records, txids: set<Name>, heights: set<uint64>)
    requires heights == Rows(TxHeights(records), txids)
    ensures TxHeights(PurgedByTxids(records, txids)) == Minus(TxHeights(records), txids, heights)
    ensures HeightTxs(PurgedByTxids(records, txids)) == Minus(HeightTxs(records), heights, txids)
  {
    var left := PurgedByTxids(records, txids);
    forall r | r in records ensures r in left <==> !(r.txid in txids && r.height in heights) {
      assert (r.txid, r.height) in TxHeights(records);
    }
    forall p ensures p in TxHeights(left) <==> p in Minus(TxHeights(records), txids, heights) {
      if p in Minus(TxHeights(records), txids, heights) {
        var r :| r in records && p == (r.txid, r.height);
        assert r in left;
      }
    }
    forall p ensures p in HeightTxs(left) <==> p in Minus(HeightTxs(records), heights, txids) {
      if p in Minus(HeightTxs(records), heights, txids) {
        var r :| r in records && p == (r.height, r.txid);
        assert r in left;
      }
    }
  }

  function LowTxs(records: Records, max: uint64): set<Name> {
    set r | r in records && r.height < max :: r.txid
  }

  function LowHeights(records: Records, max: uint64): set<uint64> {
    set r | r in records && r.height < max :: r.height
  }

  lemma PurgeBelowPairs(records: Records, max: uint64)
    ensures PurgedOf(records, LowTxs(records, max), max) == PurgedBelow(records, max)
    ensures TxHeights(PurgedBelow(records, max)) ==
            Minus(TxHeights(records), LowTxs(records, max), LowHeights(records, max))
    ensures HeightTxs(PurgedBelow(records, max)) == set p | p in HeightTxs(records) && p.0 >= max
  {
    var left, ts, hs := PurgedBelow(records, max), LowTxs(records, max), LowHeights(records, max);
    forall r | r in records ensures r in left <==> !(r.txid in ts && r.height in hs) {
    }
    forall p ensures p in TxHeights(left) <==> p in Minus(TxHeights(records), ts, hs) {
      if p in Minus(TxHeights(records), ts, hs) {
        var r :| r in records && p == (r.txid, r.height);
        assert r in left;
      }
    }
    forall p ensures p in HeightTxs(left) <==> p in HeightTxs(records) && p.0 >= max {
      if p in HeightTxs(records) && p.0 >= max {
        var r :| r in records && p == (r.height, r.txid);
        assert r in left;
      }
    }
  }

  method Unique<T(==)>(s: seq<T>) returns (r: seq<T>)
    ensures r == FirstOccurrences(s) && Range(r) == Range(s)
  {
    var a := new T[|s|](i requires 0 <= i < |s| => s[i]);
    assert a[..] == s;
    var j := SliceUnique(a);
    r := a[..j];
    FirstOccurrencesUnique(s);
  }

  class Store {
    var cache: map<Name, RWSets>
    var blockHeightCache: map<uint64, seq<Name>>
    var txidCache: map<Name, seq<uint64>>
    ghost var records: Records

    // The three caches agree with the records; slices are sorted, without duplicates and never left empty
    ghost predicate Valid()
      reads this
    {
      && CacheHolds(cache, records)
      && Indexes(TXID_ORDER, blockHeightCache, HeightTxs(records))
      && Indexes(HEIGHT_ORDER, txidCache, TxHeights(records))
    }

    constructor ()
      ensures Valid() && records == map[]
    {
      cache, blockHeightCache, txidCache, records := map[], map[], map[], map[];
    }

    method Persist(txid: Name, uuid: Name, height: uint64, rwset: Bytes)
      requires Valid()
      modifies this
      ensures Valid() && records == old(records)[Record(txid, uuid, height) := rwset]
    {
      var r := Record(txid, uuid, height);
      PersistHolds(cache, records, r, rwset);
      cache := cache[txid := LoadSets(cache, txid)[KeyOf(r) := rwset]];
      OrdersSeparate();
      PersistPairs(records, r, rwset);
      blockHeightCache := AddTo(TXID_ORDER, blockHeightCache, height, txid, HeightTxs(records));
      txidCache := AddTo(HEIGHT_ORDER, txidCache, txid, height, TxHeights(records));
      records := records[r := rwset];
    }

    // A lookup may leave an empty entry behind
    method GetTxPvtRWSetByTxid(txid: Name) returns (results: seq<(Bytes, Bytes)>)
      requires Valid()
      modifies this
      ensures Valid() && records == old(records) && cache == old(cache)[txid := LoadSets(old(cache), txid)]
      ensures forall key, v :: (key, v) in results <==> IsRecord(records, txid, key, v)
      ensures forall i, j :: 0 <= i < j < |results| ==> results[i] != results[j]
    {
      LoadHolds(cache, records, txid);
      var m := LoadSets(cache, txid);
      SetHoldsTx(cache, records, txid, m, records);
      cache := cache[txid := m];
      results := Elements(m.Items);
      ItemsAreRecords(txid, m, records);
    }

    /** The lowest height, or none when empty: right exactly when no record is at height 0. */
    method GetMinTransientBlkHt() returns (min: Option<uint64>)
      requires Valid()
      ensures IsMinHeight(records, min) <==> forall r :: r in records ==> r.height != 0
    {
      var heights := Elements(blockHeightCache.Keys);
      var m := MinOf(heights);
      HeightsListed(blockHeightCache, records, heights);
      min := if m == 0 then None else Some(m);
      MinRightIff(records, heights, min);
    }

    method PurgeByTxids(txids: seq<Name>)
      requires Valid()
      modifies this
      ensures Valid() && records == PurgedByTxids(old(records), Range(txids))
      ensures forall r :: r in records <==> r in old(records) && r.txid !in txids
      ensures forall r :: r in records ==> records[r] == old(records)[r]
    {
      PurgeTxidsHolds(cache, records, Range(txids));
      cache := cache - Range(txids);
      var heights, loaded := Collect(HEIGHT_ORDER, txidCache, txids, TxHeights(records));
      heights := Unique(heights);
      PurgeTxidsPairs(records, Range(txids), Range(heights));
      blockHeightCache := RemoveRows(TXID_ORDER, blockHeightCache, heights, txids, HeightTxs(records));
      txidCache := RemoveRows(HEIGHT_ORDER, loaded, txids, heights, TxHeights(records));
      records := PurgedByTxids(records, Range(txids));
    }

    method PurgeBelowHeight(max: uint64) returns (ok: bool)
      requires Valid()
      modifies this
      ensures ok && Valid() && records == PurgedBelow(old(records), max)
      ensures forall r :: r in records <==> r in old(records) && max <= r.height
      ensures forall r :: r in records ==> records[r] == old(records)[r]
    {
      var txids, heights, kept := TakeBelow(blockHeightCache, max, records);
      blockHeightCache := kept;
      txids := Unique(txids);
      heights := Unique(heights);
      PurgeBelowPairs(records, max);
      HeightOfDecodes();
      var sets: map<Name, RWSets>;
      ok, sets := PurgeSets(HEIGHT_OF, cache, txids, max, records);
      if !ok {
        return;
      }
      cache := sets;
      txidCache := RemoveRows(HEIGHT_ORDER, txidCache, txids, heights, TxHeights(records));
      records := PurgedBelow(records, max);
    }
  }

  // Removes the heights below max from the index and lists them and their transactions
  method TakeBelow(idx: map<uint64, seq<Name>>, max: uint64, ghost records: Records)
    returns (txids: seq<Name>, heights: seq<uint64>, idx': map<uint64, seq<Name>>)
    requires Indexes(TXID_ORDER, idx, HeightTxs(records))
    ensures Range(txids) == LowTxs(records, max) && Range(heights) == LowHeights(records, max)
    ensures Indexes(TXID_ORDER, idx', HeightTxs(PurgedBelow(records, max)))
  {
    var ks := Elements(idx.Keys);
    txids, heights, idx' := [], [], idx;
    ghost var rel := HeightTxs(records);
    for i := 0 to |ks|
      invariant Range(heights) == LowOf(Range(ks[..i]), max)
      invariant Range(txids) == TxsAt(rel, Range(ks[..i]), max)
      invariant idx' == idx - Range(heights)
    {
      RangeNext(ks, i);
      var k := ks[i];
      TxsAtNext(rel, Range(ks[..i]), k, max);
      if k < max {
        TakeRow(idx, rel, k, txids, heights);
        txids, heights := txids + idx[k], heights + [k];
        idx' := idx' - {k};
      }
    }
    RangeWhole(ks);
    TakenIsLow(idx, records, max, ks, txids, heights);
    KeptIndexes(idx, records, max, idx');
  }

  function LowOf(hs: set<uint64>, max: uint64): set<uint64> {
    set h | h in hs && h < max
  }

  ghost function TxsAt(rel: set<(uint64, Name)>, hs: set<uint64>, max: uint64): set<Name> {
    set p | p in rel && p.0 in hs && p.0 < max :: p.1
  }

  lemma TxsAtNext(rel: set<(uint64, Name)>, hs: set<uint64>, h: uint64, max: uint64)
    ensures LowOf(hs + {h}, max) == LowOf(hs, max) + if h < max then {h} else {}
    ensures TxsAt(rel, hs + {h}, max) == TxsAt(rel, hs, max) + if h < max then Row(rel, h) else {}
  {
  }

  lemma TakeRow(idx: map<uint64, seq<Name>>, rel: set<(uint64, Name)>, k: uint64, txids: seq<Name>,
                heights: seq<uint64>)
    requires Holds(TXID_ORDER, idx, rel) && k in idx
    ensures Range(txids + idx[k]) == Range(txids) + Row(rel, k)
    ensures Range(heights + [k]) == Range(heights) + {k}
    ensures idx - Range(heights + [k]) == idx - Range(heights) - {k}
  {
  }

  lemma TakenIsLow(idx: map<uint64, seq<Name>>, records: Records, max: uint64, ks: seq<uint64>, txids: seq<Name>,
                   heights: seq<uint64>)
    requires Indexes(TXID_ORDER, idx, HeightTxs(records)) && Range(ks) == idx.Keys
    requires Range(heights) == LowOf(Range(ks), max)
    requires Range(txids) == TxsAt(HeightTxs(records), Range(ks), max)
    ensures Range(txids) == LowTxs(records, max) && Range(heights) == LowHeights(records, max)
  {
    HeightsListed(idx, records, ks);
    forall r | r in records ensures (r.height, r.txid) in HeightTxs(records) && HasHeight(records, r.height) {
    }
    forall h ensures h in Range(heights) <==> h in LowHeights(records, max) {
    }
    forall t | t in LowTxs(records, max) ensures t in Range(txids) {
      var r :| r in records && r.height < max && r.txid == t;
      assert (r.height, r.txid) in HeightTxs(records) && r.height in Range(ks);
    }
  }

  lemma KeptIndexes(idx: map<uint64, seq<Name>>, records: Records, max: uint64, idx': map<uint64, seq<Name>>)
    requires Indexes(TXID_ORDER, idx, HeightTxs(records))
    requires idx' == idx - LowHeights(records, max)
    ensures Indexes(TXID_ORDER, idx', HeightTxs(PurgedBelow(records, max)))
  {
    PurgeBelowPairs(records, max);
    var rel, rel' := HeightTxs(records), HeightTxs(PurgedBelow(records, max));
    forall h | h in idx' ensures h >= max && Row(rel', h) == Row(rel, h) {
      assert Lists(TXID_ORDER, idx[h], Row(rel, h)) && idx[h] != [];
      assert idx[h][0] in idx[h];
      assert (h, idx[h][0]) in rel;
    }
    forall p | p in rel' ensures p.0 in idx' {
    }
  }

  // The loop's minimum, with 0 standing for none yet
  method MinOf(heights: seq<uint64>) returns (m: uint64)
    ensures 0 !in heights && heights == [] ==> m == 0
    ensures 0 !in heights && heights != [] ==> m in heights && forall h :: h in heights ==> m <= h
  {
    m := 0;
    for i := 0 to |heights|
      invariant 0 !in heights[..i] ==> (m == 0 <==> i == 0)
      invariant 0 !in heights[..i] && i > 0 ==> m in heights[..i] && forall h :: h in heights[..i] ==> m <= h
    {
      assert heights[..i + 1] == heights[..i] + [heights[i]];
      if m == 0 || heights[i] < m {
        m := heights[i];
      }
    }
    assert heights[..|heights|] == heights;
  }

  lemma MinRightIff(records: Records, heights: seq<uint64>, min: Option<uint64>)
    requires forall h :: h in heights <==> HasHeight(records, h)
    requires min.Some? ==> min.value != 0
    requires 0 !in heights && heights == [] ==> min == None
    requires 0 !in heights && heights != [] ==> min.Some? && min.value in heights && forall h :: h in heights ==>
        min.value <= h
    ensures IsMinHeight(records, min) <==> forall r :: r in records ==> r.height != 0
  {
    assert forall r :: r in records ==> HasHeight(records, r.height);
    if heights != [] {
      assert heights[0] in heights;
    }
    assert 0 in heights <==> HasHeight(records, 0);
  }

  ghost predicate HasHeight(records: Records, h: uint64) {
    exists r :: r in records && r.height == h
  }

  // One of the transaction's records has this key and value
  ghost predicate IsRecord(records: Records, txid: Name, key: Bytes, v: Bytes) {
    exists r :: r in records && r.txid == txid && KeyOf(r) == key && records[r] == v
  }

  lemma ItemsAreRecords(txid: Name, m: RWSets, records: Records)
    requires HoldsTx(txid, m, records)
    ensures forall key, v :: (key, v) in m.Items <==> IsRecord(records, txid, key, v)
  {
    forall key, v ensures (key, v) in m.Items <==> IsRecord(records, txid, key, v) {
      if (key, v) in m.Items {
        var r :| r in records && r.txid == txid && KeyOf(r) == key;
        assert m[KeyOf(r)] == records[r];
      }
    }
  }

  lemma HeightsListed(idx: map<uint64, seq<Name>>, records: Records, heights: seq<uint64>)
    requires Indexes(TXID_ORDER, idx, HeightTxs(records)) && forall h :: h in heights <==> h in idx
    ensures forall h :: h in heights <==> HasHeight(records, h)
  {
    forall h | h in idx ensures HasHeight(records, h) {
      assert idx[h][0] in Row(HeightTxs(records), h);
    }
    forall r | r in records ensures r.height in idx {
      assert (r.height, r.txid) in HeightTxs(records);
    }
  }
}
