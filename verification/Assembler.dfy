/**
  Turning a transaction write set into data entries and back. Committing flattens the block's
  write sets; reading regroups the entries by transaction and namespace.
 */
module Assembler {
  import opened Digits
  import opened PvtTypes
  import opened KeyEncoding
  import opened Sorting

  datatype CollWrites = CollWrites(coll: Name, rwset: Bytes)

  datatype NsWrites = NsWrites(ns: Name, colls: seq<CollWrites>)

  datatype TxPvtData = TxPvtData(tx: uint64, nss: seq<NsWrites>)

  datatype DataEntry = DataEntry(key: DataKey, value: CollWrites)

  // ----- Flattening

  function CollEntries(blk: uint64, tx: uint64, ns: Name, colls: seq<CollWrites>): (r: seq<DataEntry>)
    ensures |r| == |colls|
  {
    if colls == [] then []
    else [DataEntry(DataKey(ns, colls[0].coll, blk, tx), colls[0])] + CollEntries(blk, tx, ns, colls[1..])
  }

  function NsEntries(blk: uint64, tx: uint64, nss: seq<NsWrites>): seq<DataEntry> {
    if nss == [] then [] else CollEntries(blk, tx, nss[0].ns, nss[0].colls) + NsEntries(blk, tx, nss[1..])
  }

  /** The data entries of a block: one per collection written, in the order given. */
  function DataEntries(blk: uint64, pvt: seq<TxPvtData>): seq<DataEntry> {
    if pvt == [] then [] else NsEntries(blk, pvt[0].tx, pvt[0].nss) + DataEntries(blk, pvt[1..])
  }

  lemma {:induction false} CollEntriesSnoc(blk: uint64, tx: uint64, ns: Name, colls: seq<CollWrites>, c: CollWrites)
    ensures CollEntries(blk, tx, ns, colls + [c]) ==
            CollEntries(blk, tx, ns, colls) + [DataEntry(DataKey(ns, c.coll, blk, tx), c)]
  {
    if colls == [] {
      assert colls + [c] == [c];
    } else {
      assert (colls + [c])[1..] == colls[1..] + [c];
      CollEntriesSnoc(blk, tx, ns, colls[1..], c);
    }
  }

  lemma {:induction false} NsEntriesSnoc(blk: uint64, tx: uint64, nss: seq<NsWrites>, n: NsWrites)
    ensures NsEntries(blk, tx, nss + [n]) == NsEntries(blk, tx, nss) + CollEntries(blk, tx, n.ns, n.colls)
  {
    if nss == [] {
      assert nss + [n] == [n];
      assert NsEntries(blk, tx, []) == [];
    } else {
      assert (nss + [n])[1..] == nss[1..] + [n];
      NsEntriesSnoc(blk, tx, nss[1..], n);
    }
  }

  lemma {:induction false} DataEntriesSnoc(blk: uint64, pvt: seq<TxPvtData>, t: TxPvtData)
    ensures DataEntries(blk, pvt + [t]) == DataEntries(blk, pvt) + NsEntries(blk, t.tx, t.nss)
  {
    if pvt == [] {
      assert pvt + [t] == [t];
      assert DataEntries(blk, []) == [];
    } else {
      assert (pvt + [t])[1..] == pvt[1..] + [t];
      DataEntriesSnoc(blk, pvt[1..], t);
    }
  }

  method PrepareDataEntries(blk: uint64, pvt: seq<TxPvtData>) returns (entries: seq<DataEntry>)
    ensures entries == DataEntries(blk, pvt)
  {
    entries := [];
    for i := 0 to |pvt|
      invariant entries == DataEntries(blk, pvt[..i])
    {
      var t := pvt[i];
      ghost var before := entries;
      for j := 0 to |t.nss|
        invariant entries == before + NsEntries(blk, t.tx, t.nss[..j])
      {
        var n := t.nss[j];
        ghost var outer := entries;
        for k := 0 to |n.colls|
          invariant entries == outer + CollEntries(blk, t.tx, n.ns, n.colls[..k])
        {
          entries := entries + [DataEntry(DataKey(n.ns, n.colls[k].coll, blk, t.tx), n.colls[k])];
          assert n.colls[..k + 1] == n.colls[..k] + [n.colls[k]];
          CollEntriesSnoc(blk, t.tx, n.ns, n.colls[..k], n.colls[k]);
        }
        assert n.colls[..|n.colls|] == n.colls && t.nss[..j + 1] == t.nss[..j] + [n];
        NsEntriesSnoc(blk, t.tx, t.nss[..j], n);
      }
      assert t.nss[..|t.nss|] == t.nss && pvt[..i + 1] == pvt[..i] + [t];
      DataEntriesSnoc(blk, pvt[..i], t);
    }
    assert pvt[..|pvt|] == pvt;
  }

  // ----- Regrouping

  function AddNs(nss: seq<NsWrites>, ns: Name, c: CollWrites): (r: seq<NsWrites>)
    ensures r != [] && r[|r| - 1].ns == ns
  {
    var last := |nss| - 1;
    if nss != [] && nss[last].ns == ns then nss[..last] + [NsWrites(ns, nss[last].colls + [c])]
    else nss + [NsWrites(ns, [c])]
  }

  function AddTx(pvt: seq<TxPvtData>, e: DataEntry): (r: seq<TxPvtData>)
    ensures r != [] && r[|r| - 1].tx == e.key.tx
  {
    var last := |pvt| - 1;
    if pvt != [] && pvt[last].tx == e.key.tx then
      pvt[..last] + [TxPvtData(e.key.tx, AddNs(pvt[last].nss, e.key.ns, e.value))]
    else pvt + [TxPvtData(e.key.tx, AddNs([], e.key.ns, e.value))]
  }

  /** Consecutive entries of a transaction, and in it of a namespace, become one write set. */
  function Assembled(entries: seq<DataEntry>): seq<TxPvtData> {
    if entries == [] then [] else AddTx(Assembled(entries[..|entries| - 1]), entries[|entries| - 1])
  }

  lemma AssembledSnoc(entries: seq<DataEntry>, e: DataEntry)
    ensures Assembled(entries + [e]) == AddTx(Assembled(entries), e)
  {
    assert (entries + [e])[..|entries|] == entries;
  }

  lemma AddTxAfter(pvt: seq<TxPvtData>, t: TxPvtData, e: DataEntry)
    ensures AddTx(pvt + [t], e) ==
            if t.tx == e.key.tx then pvt + [TxPvtData(t.tx, AddNs(t.nss, e.key.ns, e.value))]
            else pvt + [t] + [TxPvtData(e.key.tx, AddNs([], e.key.ns, e.value))]
  {
    assert (pvt + [t])[..|pvt|] == pvt;
  }

  // The write set of one transaction as its collections arrive
  class TxAssembler {
    const tx: uint64
    var txWset: seq<NsWrites>
    var currentNs: Option<NsWrites>
    var firstCall: bool

    ghost predicate Valid()
      reads this
    {
      firstCall == currentNs.None? && (firstCall ==> txWset == [])
    }

    // What done() would leave in the transaction's write set
    ghost function Contents(): seq<NsWrites>
      reads this
    {
      if currentNs.Some? then txWset + [currentNs.value] else txWset
    }

    constructor (tx: uint64)
      ensures Valid() && this.tx == tx && Contents() == []
    {
      this.tx := tx;
      txWset, currentNs, firstCall := [], None, true;
    }

    method Add(ns: Name, c: CollWrites)
      requires Valid()
      modifies this
      ensures Valid() && Contents() == AddNs(old(Contents()), ns, c)
    {
      if firstCall {
        currentNs := Some(NsWrites(ns, []));
        firstCall := false;
      }
      if currentNs.value.ns != ns {
        txWset := txWset + [currentNs.value];
        currentNs := Some(NsWrites(ns, []));
      }
      currentNs := Some(NsWrites(ns, currentNs.value.colls + [c]));
      assert [] + [c] == [c];
      assert old(currentNs).Some? ==> old(Contents())[..|old(txWset)|] == old(txWset);
    }

    method GetTxPvtdata() returns (r: TxPvtData)
      requires Valid()
      modifies this
      ensures r == TxPvtData(tx, old(Contents())) && txWset == old(Contents()) && currentNs == None
    {
      if currentNs.Some? {
        txWset := txWset + [currentNs.value];
      }
      currentNs := None;
      r := TxPvtData(tx, txWset);
    }
  }

  // A block's transactions as its entries arrive in key order
  class BlockAssembler {
    var blockPvtdata: seq<TxPvtData>
    var currentTx: uint64
    var current: TxAssembler?

    ghost predicate Valid()
      reads this, current
    {
      if current == null then blockPvtdata == [] else current.Valid() && current.tx == currentTx
    }

    ghost function Contents(): seq<TxPvtData>
      reads this, current
    {
      if current == null then blockPvtdata else blockPvtdata + [TxPvtData(current.tx, current.Contents())]
    }

    constructor ()
      ensures Valid() && current == null && Contents() == []
    {
      blockPvtdata, currentTx, current := [], 0, null;
    }

    method AssembleEntry(e: DataEntry)
      requires Valid()
      modifies this, current
      ensures Valid() && current != null && (current == old(current) || fresh(current))
      ensures Contents() == AddTx(old(Contents()), e)
    {
      if current == null {
        currentTx := e.key.tx;
        current := new TxAssembler(currentTx);
      } else {
        AddTxAfter(blockPvtdata, TxPvtData(currentTx, current.Contents()), e);
        if e.key.tx != currentTx {
          var t := current.GetTxPvtdata();
          blockPvtdata := blockPvtdata + [t];
          currentTx := e.key.tx;
          current := new TxAssembler(currentTx);
        }
      }
      current.Add(e.key.ns, e.value);
    }

    method Finish() returns (pvt: seq<TxPvtData>)
      requires Valid()
      modifies this, current
      ensures pvt == old(Contents())
    {
      if current != null {
        var t := current.GetTxPvtdata();
        blockPvtdata := blockPvtdata + [t];
      }
      pvt := blockPvtdata;
    }
  }

  /** The loop of both stores: visible entries are grouped, the others skipped. */
  method AssembleBlock(entries: seq<DataEntry>, visible: DataEntry -> bool) returns (pvt: seq<TxPvtData>)
    ensures pvt == Assembled(Filter(entries, visible))
  {
    var a := new BlockAssembler();
    ghost var shown: seq<DataEntry> := [];
    for i := 0 to |entries|
      invariant a.Valid() && (a.current == null || fresh(a.current))
      invariant shown == Filter(entries[..i], visible)
      invariant a.Contents() == Assembled(shown)
    {
      var e := entries[i];
      if visible(e) {
        AssembledSnoc(shown, e);
        a.AssembleEntry(e);
        shown := shown + [e];
      }
      assert shown == Filter(entries[..i + 1], visible) by {
        assert entries[..i + 1] == entries[..i] + [e];
        FilterAppend(entries[..i], e, visible);
      }
    }
    assert entries[..|entries|] == entries;
    pvt := a.Finish();
  }

  // ----- What the groups are

  // The entries carry their own key's collection, as DataEntries makes them
  predicate OfBlock(blk: uint64, entries: seq<DataEntry>) {
    forall i :: 0 <= i < |entries| ==> entries[i].key.blk == blk && entries[i].key.coll == entries[i].value.coll
  }

  lemma NsEntriesAdd(blk: uint64, tx: uint64, nss: seq<NsWrites>, ns: Name, c: CollWrites)
    ensures NsEntries(blk, tx, AddNs(nss, ns, c)) ==
            NsEntries(blk, tx, nss) + [DataEntry(DataKey(ns, c.coll, blk, tx), c)]
  {
    var last := |nss| - 1;
    if nss != [] && nss[last].ns == ns {
      assert nss == nss[..last] + [nss[last]];
      NsEntriesSnoc(blk, tx, nss[..last], nss[last]);
      NsEntriesSnoc(blk, tx, nss[..last], NsWrites(ns, nss[last].colls + [c]));
      CollEntriesSnoc(blk, tx, ns, nss[last].colls, c);
    } else {
      NsEntriesSnoc(blk, tx, nss, NsWrites(ns, [c]));
      CollEntriesSnoc(blk, tx, ns, [], c);
      assert [] + [c] == [c];
    }
  }

  lemma DataEntriesAdd(blk: uint64, pvt: seq<TxPvtData>, e: DataEntry)
    requires e.key.blk == blk && e.key.coll == e.value.coll
    ensures DataEntries(blk, AddTx(pvt, e)) == DataEntries(blk, pvt) + [e]
  {
    var last := |pvt| - 1;
    if pvt != [] && pvt[last].tx == e.key.tx {
      assert pvt == pvt[..last] + [pvt[last]];
      DataEntriesSnoc(blk, pvt[..last], pvt[last]);
      DataEntriesSnoc(blk, pvt[..last], TxPvtData(e.key.tx, AddNs(pvt[last].nss, e.key.ns, e.value)));
      NsEntriesAdd(blk, e.key.tx, pvt[last].nss, e.key.ns, e.value);
    } else {
      DataEntriesSnoc(blk, pvt, TxPvtData(e.key.tx, AddNs([], e.key.ns, e.value)));
      NsEntriesAdd(blk, e.key.tx, [], e.key.ns, e.value);
    }
  }

  /** Regrouping loses nothing and invents nothing: flattening the result gives the entries back. */
  lemma {:induction false} FlattenAssembled(blk: uint64, entries: seq<DataEntry>)
    requires OfBlock(blk, entries)
    ensures DataEntries(blk, Assembled(entries)) == entries
  {
    if entries != [] {
      var last := |entries| - 1;
      FlattenAssembled(blk, entries[..last]);
      DataEntriesAdd(blk, Assembled(entries[..last]), entries[last]);
      assert entries == entries[..last] + [entries[last]];
    }
  }

  predicate NsIncreasing(nss: seq<NsWrites>) {
    forall i, j :: 0 <= i < j < |nss| ==> Less(nss[i].ns, nss[j].ns)
  }

  // One write set per transaction, in transaction order; in each, one per namespace in byte order
  predicate WellGrouped(pvt: seq<TxPvtData>) {
    && (forall i, j :: 0 <= i < j < |pvt| ==> pvt[i].tx < pvt[j].tx)
    && (forall i :: 0 <= i < |pvt| ==> pvt[i].nss != [] && NsIncreasing(pvt[i].nss))
    && (forall i, j :: 0 <= i < |pvt| && 0 <= j < |pvt[i].nss| ==> pvt[i].nss[j].colls != [])
  }

  ghost predicate KeysSorted(entries: seq<DataEntry>) {
    forall i, j :: 0 <= i < j < |entries| ==> Less(EncodeDataKey(entries[i].key), EncodeDataKey(entries[j].key))
  }

  // The last transaction and namespace of the groups are those of the last entry
  predicate EndsAt(pvt: seq<TxPvtData>, k: DataKey) {
    && pvt != [] && pvt[|pvt| - 1].tx == k.tx
    && pvt[|pvt| - 1].nss != [] && pvt[|pvt| - 1].nss[|pvt[|pvt| - 1].nss| - 1].ns == k.ns
  }

  lemma GroupNext(pvt: seq<TxPvtData>, k: DataKey, e: DataEntry)
    requires WellGrouped(pvt) && EndsAt(pvt, k) && k.blk == e.key.blk
    requires Less(EncodeDataKey(k), EncodeDataKey(e.key))
    ensures WellGrouped(AddTx(pvt, e)) && EndsAt(AddTx(pvt, e), e.key)
  {
    DataKeyOrder(k, e.key);
    var last := |pvt| - 1;
    var r := AddTx(pvt, e);
    if pvt[last].tx == e.key.tx {
      GroupNextNs(pvt[last].nss, e.key.ns, e.value);
    }
  }

  lemma GroupNextNs(nss: seq<NsWrites>, ns: Name, c: CollWrites)
    requires nss != [] && NsIncreasing(nss) && (forall j :: 0 <= j < |nss| ==> nss[j].colls != [])
    requires nss[|nss| - 1].ns == ns || Less(nss[|nss| - 1].ns, ns)
    ensures NsIncreasing(AddNs(nss, ns, c))
    ensures forall j :: 0 <= j < |AddNs(nss, ns, c)| ==> AddNs(nss, ns, c)[j].colls != []
  {
    var r := AddNs(nss, ns, c);
    forall i, j | 0 <= i < j < |r| ensures Less(r[i].ns, r[j].ns) {
      if j == |nss| && i < |nss| - 1 {
        LessTransitive(nss[i].ns, nss[|nss| - 1].ns, ns);
      }
    }
  }

  /**
    From entries in key order: strictly increasing transactions, one entry each, and in each
    transaction one write set per namespace.
   */
  lemma {:induction false} AssembledWellGrouped(blk: uint64, entries: seq<DataEntry>)
    requires OfBlock(blk, entries) && KeysSorted(entries)
    ensures WellGrouped(Assembled(entries))
    ensures entries != [] ==> EndsAt(Assembled(entries), entries[|entries| - 1].key)
  {
    if entries != [] {
      var last := |entries| - 1;
      AssembledWellGrouped(blk, entries[..last]);
      if last > 0 {
        GroupNext(Assembled(entries[..last]), entries[last - 1].key, entries[last]);
      }
    }
  }
}
