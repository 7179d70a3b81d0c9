/** The entries a block's private data, present and missing, turns into. */
module StoreEntries {
  import opened PvtTypes
  import opened Assembler

  type Bitmap = set<uint64>

  type MissingMap = map<MissingKey, Bitmap>

  datatype MissingColl = MissingColl(ns: Name, coll: Name, eligible: bool)

  // The missing collections of each transaction
  type TxMissing = map<uint64, seq<MissingColl>>

  datatype NsCollTx = NsCollTx(ns: Name, coll: Name, tx: uint64)

  // What expires together: data that is present and collections that are missing
  datatype ExpiryData = ExpiryData(present: set<NsCollTx>, missing: set<NsColl>)

  function KeyOf(blk: uint64, c: MissingColl): MissingKey {
    MissingKey(c.ns, c.coll, blk)
  }

  // ----- Missing data entries

  predicate Misses(missing: TxMissing, tx: uint64, k: MissingKey, eligible: bool) {
    tx in missing && MissingColl(k.ns, k.coll, eligible) in missing[tx]
  }

  function MissingKeys(blk: uint64, missing: TxMissing, eligible: bool): set<MissingKey> {
    set tx, c | tx in missing && c in missing[tx] && c.eligible == eligible :: KeyOf(blk, c)
  }

  /** Per collection, the transactions of the block that miss it with the given eligibility. */
  function MissingEntries(blk: uint64, missing: TxMissing, eligible: bool): MissingMap {
    map k | k in MissingKeys(blk, missing, eligible) :: set tx | tx in missing && Misses(missing, tx, k, eligible)
  }

  function SetBit(m: MissingMap, k: MissingKey, tx: uint64): MissingMap {
    m[k := (if k in m then m[k] else {}) + {tx}]
  }

  // The bits as pairs; two index groups without empty bitmaps are equal when their bits are
  function Bits(m: MissingMap): set<(MissingKey, uint64)> {
    set k, tx | k in m && tx in m[k] :: (k, tx)
  }

  predicate NoEmptyBitmap(m: MissingMap) {
    forall k :: k in m ==> m[k] != {}
  }

  lemma SetBitBits(m: MissingMap, k: MissingKey, tx: uint64)
    ensures Bits(SetBit(m, k, tx)) == Bits(m) + {(k, tx)}
    ensures NoEmptyBitmap(m) ==> NoEmptyBitmap(SetBit(m, k, tx))
  {
    assert tx in SetBit(m, k, tx)[k];
  }

  lemma SameBits(a: MissingMap, b: MissingMap)
    requires NoEmptyBitmap(a) && NoEmptyBitmap(b) && Bits(a) == Bits(b)
    ensures a == b
  {
    forall k ensures k in a <==> k in b {
      if k in a {
        var tx :| tx in a[k];
        assert (k, tx) in Bits(b);
      }
      if k in b {
        var tx :| tx in b[k];
        assert (k, tx) in Bits(a);
      }
    }
    forall k | k in a ensures a[k] == b[k] {
      forall tx ensures tx in a[k] <==> tx in b[k] {
        assert (k, tx) in Bits(a) <==> tx in a[k];
        assert (k, tx) in Bits(b) <==> tx in b[k];
      }
    }
  }

  // The bits the first n collections of a transaction add
  function TxBits(blk: uint64, tx: uint64, colls: seq<MissingColl>, eligible: bool): set<(MissingKey, uint64)> {
    set c | c in colls && c.eligible == eligible :: (KeyOf(blk, c), tx)
  }

  function AllBits(blk: uint64, missing: TxMissing, eligible: bool): set<(MissingKey, uint64)> {
    set tx, c | tx in missing && c in missing[tx] && c.eligible == eligible :: (KeyOf(blk, c), tx)
  }

  lemma MissingEntriesBits(blk: uint64, missing: TxMissing, eligible: bool)
    ensures Bits(MissingEntries(blk, missing, eligible)) == AllBits(blk, missing, eligible)
    ensures NoEmptyBitmap(MissingEntries(blk, missing, eligible))
  {
    var m := MissingEntries(blk, missing, eligible);
    forall k | k in m ensures m[k] != {} {
      var tx, c :| tx in missing && c in missing[tx] && c.eligible == eligible && KeyOf(blk, c) == k;
      assert Misses(missing, tx, k, eligible);
      assert tx in m[k];
    }
    forall k, tx ensures (k, tx) in Bits(m) <==> (k, tx) in AllBits(blk, missing, eligible) {
      if (k, tx) in Bits(m) {
        var tx', c :| tx' in missing && c in missing[tx'] && c.eligible == eligible && KeyOf(blk, c) == k;
        assert (KeyOf(blk, c), tx) in AllBits(blk, missing, eligible);
      }
      if (k, tx) in AllBits(blk, missing, eligible) {
        var c :| c in missing[tx] && c.eligible == eligible && KeyOf(blk, c) == k;
        assert k in MissingKeys(blk, missing, eligible);
        assert Misses(missing, tx, k, eligible);
      }
    }
  }

  method PrepareMissingDataEntries(blk: uint64, missing: TxMissing) returns (elg: MissingMap, inelg: MissingMap)
    ensures elg == MissingEntries(blk, missing, true)
    ensures inelg == MissingEntries(blk, missing, false)
  {
    elg, inelg := map[], map[];
    var rest := missing.Keys;
    while rest != {}
      invariant rest <= missing.Keys
      invariant NoEmptyBitmap(elg) && NoEmptyBitmap(inelg)
      invariant Bits(elg) == AllBits(blk, missing - rest, true)
      invariant Bits(inelg) == AllBits(blk, missing - rest, false)
      decreases rest
    {
      var tx :| tx in rest;
      elg, inelg := SetTxBits(blk, tx, missing[tx], elg, inelg);
      AllBitsWith(blk, missing, rest, tx, true);
      AllBitsWith(blk, missing, rest, tx, false);
      rest := rest - {tx};
    }
    assert missing - rest == missing;
    MissingEntriesBits(blk, missing, true);
    MissingEntriesBits(blk, missing, false);
    SameBits(elg, MissingEntries(blk, missing, true));
    SameBits(inelg, MissingEntries(blk, missing, false));
  }

  lemma AllBitsWith(blk: uint64, missing: TxMissing, rest: set<uint64>, tx: uint64, eligible: bool)
    requires rest <= missing.Keys && tx in rest
    ensures AllBits(blk, missing - (rest - {tx}), eligible) ==
            AllBits(blk, missing - rest, eligible) + TxBits(blk, tx, missing[tx], eligible)
  {
    var a, b := missing - (rest - {tx}), missing - rest;
    assert a.Keys == b.Keys + {tx};
    forall x ensures x in AllBits(blk, a, eligible) <==>
        x in AllBits(blk, b, eligible) + TxBits(blk, tx, missing[tx], eligible) {
      if x in AllBits(blk, a, eligible) {
        var t, c :| t in a && c in a[t] && c.eligible == eligible && (KeyOf(blk, c), t) == x;
        if t != tx {
          assert t in b && c in b[t];
        }
      }
      if x in AllBits(blk, b, eligible) {
        var t, c :| t in b && c in b[t] && c.eligible == eligible && (KeyOf(blk, c), t) == x;
        assert t in a && c in a[t];
      }
      if x in TxBits(blk, tx, missing[tx], eligible) {
        var c :| c in missing[tx] && c.eligible == eligible && (KeyOf(blk, c), tx) == x;
        assert tx in a && c in a[tx];
      }
    }
  }

  method SetTxBits(blk: uint64, tx: uint64, colls: seq<MissingColl>, elg0: MissingMap, inelg0: MissingMap)
    returns (elg: MissingMap, inelg: MissingMap)
    requires NoEmptyBitmap(elg0) && NoEmptyBitmap(inelg0)
    ensures NoEmptyBitmap(elg) && NoEmptyBitmap(inelg)
    ensures Bits(elg) == Bits(elg0) + TxBits(blk, tx, colls, true)
    ensures Bits(inelg) == Bits(inelg0) + TxBits(blk, tx, colls, false)
  {
    elg, inelg := elg0, inelg0;
    for i := 0 to |colls|
      invariant NoEmptyBitmap(elg) && NoEmptyBitmap(inelg)
      invariant Bits(elg) == Bits(elg0) + TxBits(blk, tx, colls[..i], true)
      invariant Bits(inelg) == Bits(inelg0) + TxBits(blk, tx, colls[..i], false)
    {
      var k := KeyOf(blk, colls[i]);
      TxBitsSnoc(blk, tx, colls, i, true);
      TxBitsSnoc(blk, tx, colls, i, false);
      if colls[i].eligible {
        SetBitBits(elg, k, tx);
        elg := SetBit(elg, k, tx);
      } else {
        SetBitBits(inelg, k, tx);
        inelg := SetBit(inelg, k, tx);
      }
    }
    assert colls[..|colls|] == colls;
  }

  lemma TxBitsSnoc(blk: uint64, tx: uint64, colls: seq<MissingColl>, i: nat, eligible: bool)
    requires i < |colls|
    ensures TxBits(blk, tx, colls[..i + 1], eligible) ==
            TxBits(blk, tx, colls[..i], eligible) +
            if colls[i].eligible == eligible then {(KeyOf(blk, colls[i]), tx)} else {}
  {
    assert colls[..i + 1] == colls[..i] + [colls[i]];
  }

  // ----- Expiry entries

  function ExpiringBlk(btl: BtlPolicy, k: MissingKey): Option<uint64> {
    btl(k.ns, k.coll, k.blk)
  }

  function DataExpiringBlk(btl: BtlPolicy, k: DataKey): Option<uint64> {
    btl(k.ns, k.coll, k.blk)
  }

  predicate PolicyKnows(btl: BtlPolicy, data: set<DataKey>, missing: set<MissingKey>) {
    (forall k :: k in data ==> DataExpiringBlk(btl, k).Some?) &&
        (forall k :: k in missing ==> ExpiringBlk(btl, k).Some?)
  }

  type ExpiryMap = map<uint64, ExpiryData>

  /** Everything of the block that expires at block e. */
  function ExpiringAt(btl: BtlPolicy, e: uint64, data: set<DataKey>, missing: set<MissingKey>): ExpiryData {
    ExpiryData(set k | k in data && DataExpiringBlk(btl, k) == Some(e) :: NsCollTx(k.ns, k.coll, k.tx),
               set k | k in missing && ExpiringBlk(btl, k) == Some(e) :: NsColl(k.ns, k.coll))
  }

  // The blocks at which something of the block expires
  function ExpiringBlocks(btl: BtlPolicy, data: set<DataKey>, missing: set<MissingKey>): set<uint64>
    requires PolicyKnows(btl, data, missing)
  {
    (set k | k in data :: DataExpiringBlk(btl, k).value) +
        (set k | k in missing :: ExpiringBlk(btl, k).value) - {MAX_UINT64}
  }

  function ExpiryEntries(btl: BtlPolicy, data: set<DataKey>, missing: set<MissingKey>): ExpiryMap
    requires PolicyKnows(btl, data, missing)
  {
    map e | e in ExpiringBlocks(btl, data, missing) :: ExpiringAt(btl, e, data, missing)
  }

  function AddPresent(m: ExpiryMap, e: uint64, p: NsCollTx): ExpiryMap {
    var d := if e in m then m[e] else ExpiryData({}, {});
    m[e := d.(present := d.present + {p})]
  }

  function AddMissing(m: ExpiryMap, e: uint64, c: NsColl): ExpiryMap {
    var d := if e in m then m[e] else ExpiryData({}, {});
    m[e := d.(missing := d.missing + {c})]
  }

  lemma ExpiryWithData(btl: BtlPolicy, data: set<DataKey>, missing: set<MissingKey>, k: DataKey)
    requires PolicyKnows(btl, data, missing) && DataExpiringBlk(btl, k).Some?
    ensures PolicyKnows(btl, data + {k}, missing)
    ensures var e := DataExpiringBlk(btl, k).value;
            ExpiryEntries(btl, data + {k}, missing) ==
            if NeverExpires(e) then ExpiryEntries(btl, data, missing)
            else AddPresent(ExpiryEntries(btl, data, missing), e, NsCollTx(k.ns, k.coll, k.tx))
  {
    var e := DataExpiringBlk(btl, k).value;
    var m, m' := ExpiryEntries(btl, data, missing), ExpiryEntries(btl, data + {k}, missing);
    assert m'.Keys == if NeverExpires(e) then m.Keys else m.Keys + {e};
    forall x | x in m' && x != e ensures x in m && m'[x] == m[x] {
      assert m'[x].present == m[x].present;
    }
    if !NeverExpires(e) {
      var before := ExpiringAt(btl, e, data, missing);
      if e !in m {
        assert before.present == {} && before.missing == {};
      }
      assert m'[e].present == before.present + {NsCollTx(k.ns, k.coll, k.tx)};
    }
  }

  lemma ExpiryWithMissing(btl: BtlPolicy, data: set<DataKey>, missing: set<MissingKey>, k: MissingKey)
    requires PolicyKnows(btl, data, missing) && ExpiringBlk(btl, k).Some?
    ensures PolicyKnows(btl, data, missing + {k})
    ensures var e := ExpiringBlk(btl, k).value;
            ExpiryEntries(btl, data, missing + {k}) ==
            if NeverExpires(e) then ExpiryEntries(btl, data, missing)
            else AddMissing(ExpiryEntries(btl, data, missing), e, NsColl(k.ns, k.coll))
  {
    var e := ExpiringBlk(btl, k).value;
    var m, m' := ExpiryEntries(btl, data, missing), ExpiryEntries(btl, data, missing + {k});
    assert m'.Keys == if NeverExpires(e) then m.Keys else m.Keys + {e};
    forall x | x in m' && x != e ensures x in m && m'[x] == m[x] {
      assert m'[x].missing == m[x].missing;
    }
    if !NeverExpires(e) {
      var before := ExpiringAt(btl, e, data, missing);
      if e !in m {
        assert before.present == {} && before.missing == {};
      }
      assert m'[e].missing == before.missing + {NsColl(k.ns, k.coll)};
    }
  }

  function KeysOf(entries: seq<DataEntry>): set<DataKey> {
    set i | 0 <= i < |entries| :: entries[i].key
  }

  lemma KeysOfSnoc(entries: seq<DataEntry>, i: nat)
    requires i < |entries|
    ensures KeysOf(entries[..i + 1]) == KeysOf(entries[..i]) + {entries[i].key}
  {
    var a, b := entries[..i + 1], entries[..i];
    assert forall j :: 0 <= j < i ==> a[j] == b[j];
    forall k ensures k in KeysOf(a) <==> k in KeysOf(b) + {entries[i].key} {
      if k in KeysOf(b) {
        var j :| 0 <= j < i && b[j].key == k;
        assert a[j].key == k;
      }
      if k == entries[i].key {
        assert a[i].key == k;
      }
    }
  }

  /** None as soon as the policy fails for some key; otherwise everything grouped by expiring block. */
  method PrepareExpiryEntries(btl: BtlPolicy, entries: seq<DataEntry>, elg: set<MissingKey>, inelg: set<MissingKey>)
    returns (r: Option<ExpiryMap>)
    ensures r == if PolicyKnows(btl, KeysOf(entries), elg + inelg)
        then Some(ExpiryEntries(btl, KeysOf(entries), elg + inelg))
                 else None
  {
    var m: ExpiryMap := map[];
    for i := 0 to |entries|
      invariant PolicyKnows(btl, KeysOf(entries[..i]), {})
      invariant m == ExpiryEntries(btl, KeysOf(entries[..i]), {})
    {
      var k := entries[i].key;
      KeysOfSnoc(entries, i);
      var e := DataExpiringBlk(btl, k);
      if e.None? {
        assert k in KeysOf(entries);
        return None;
      }
      ExpiryWithData(btl, KeysOf(entries[..i]), {}, k);
      if !NeverExpires(e.value) {
        m := AddPresent(m, e.value, NsCollTx(k.ns, k.coll, k.tx));
      }
    }
    assert entries[..|entries|] == entries;
    var first := AddMissingEntries(btl, KeysOf(entries), m, {}, elg);
    if first.None? {
      return None;
    }
    r := AddMissingEntries(btl, KeysOf(entries), first.value, {} + elg, inelg);
    assert {} + elg + inelg == elg + inelg;
  }

  method AddMissingEntries(btl: BtlPolicy, ghost data: set<DataKey>, m0: ExpiryMap, ghost done: set<MissingKey>,
                           todo: set<MissingKey>)
    returns (r: Option<ExpiryMap>)
    requires PolicyKnows(btl, data, done) && m0 == ExpiryEntries(btl, data, done)
    ensures r == if PolicyKnows(btl, data, done + todo) then Some(ExpiryEntries(btl, data, done + todo)) else None
  {
    var m := m0;
    var rest := todo;
    ghost var seen := done;
    while rest != {}
      invariant rest <= todo && seen == done + (todo - rest)
      invariant PolicyKnows(btl, data, seen) && m == ExpiryEntries(btl, data, seen)
      decreases rest
    {
      var k :| k in rest;
      var e := ExpiringBlk(btl, k);
      if e.None? {
        return None;
      }
      ExpiryWithMissing(btl, data, seen, k);
      if !NeverExpires(e.value) {
        m := AddMissing(m, e.value, NsColl(k.ns, k.coll));
      }
      rest := rest - {k};
      seen := seen + {k};
    }
    assert seen == done + todo;
    return Some(m);
  }

  datatype Entries = Entries(data: seq<DataEntry>, expiry: ExpiryMap, elg: MissingMap, inelg: MissingMap)

  /** Everything a block stores, or None when the policy fails for one of its collections. */
  function EntriesOfBlock(btl: BtlPolicy, blk: uint64, pvt: seq<TxPvtData>, missing: TxMissing): Option<Entries> {
    var data := DataEntries(blk, pvt);
    var elg, inelg := MissingEntries(blk, missing, true), MissingEntries(blk, missing, false);
    if PolicyKnows(btl, KeysOf(data), elg.Keys + inelg.Keys)
    then Some(Entries(data, ExpiryEntries(btl, KeysOf(data), elg.Keys + inelg.Keys), elg, inelg))
    else None
  }

  method PrepareStoreEntries(btl: BtlPolicy, blk: uint64, pvt: seq<TxPvtData>, missing: TxMissing)
    returns (r: Option<Entries>)
    ensures r == EntriesOfBlock(btl, blk, pvt, missing)
  {
    var data := PrepareDataEntries(blk, pvt);
    var elg, inelg := PrepareMissingDataEntries(blk, missing);
    var expiry := PrepareExpiryEntries(btl, data, elg.Keys, inelg.Keys);
    if expiry.None? {
      return None;
    }
    return Some(Entries(data, expiry.value, elg, inelg));
  }
}
