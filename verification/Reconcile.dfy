/**
  Committing the private data of old blocks that was missing: documents gain the data and its expiry
  entries, and the missing-data index loses the reconciled bits and deprioritizes the unreconciled ones.
 */
module Reconcile {
  import opened PvtTypes
  import opened Assembler
  import opened StoreEntries
  import opened PvtStore

  type MissingBits = set<(MissingKey, uint64)>

  // ----- The missing-data index

  function CollectionsOf(bits: MissingBits): set<MissingKey> {
    set x | x in bits :: x.0
  }

  function BitmapOf(bits: MissingBits, k: MissingKey): Bitmap {
    set x | x in bits && x.0 == k :: x.1
  }

  function FromBits(bits: MissingBits): MissingMap {
    map k | k in CollectionsOf(bits) :: BitmapOf(bits, k)
  }

  lemma FromBitsBits(bits: MissingBits)
    ensures Bits(FromBits(bits)) == bits && NoEmptyBitmap(FromBits(bits))
  {
    var m := FromBits(bits);
    forall k | k in m ensures m[k] != {} {
      var x :| x in bits && x.0 == k;
      assert x.1 in m[k];
    }
    forall x ensures x in Bits(m) <==> x in bits {
      if x in bits {
        assert x.0 in m && x.1 in m[x.0];
      }
    }
  }

  // Bits of the unreconciled list whose collection has a prioritized entry; the others are skipped
  function Listed(prio: MissingMap, unreconciled: MissingBits): MissingBits {
    set x | x in unreconciled && x.0 in prio
  }

  /** Reconciled bits go, from the deprioritized group only when the prioritized one lacks them; listed bits move. */
  function PrioBits(prio: MissingMap, reconciled: MissingBits, unreconciled: MissingBits): MissingBits {
    Bits(prio) - reconciled - unreconciled
  }

  function DeprioBits(prio: MissingMap, deprio: MissingMap, reconciled: MissingBits,
                      unreconciled: MissingBits): MissingBits {
    (Bits(deprio) - (reconciled - Bits(prio))) + Listed(prio, unreconciled)
  }

  predicate Disjoint(a: MissingMap, b: MissingMap) {
    Bits(a) * Bits(b) == {}
  }

  /**
    With disjoint groups the missing bits afterwards are the old ones without the reconciled, plus the
    listed ones; so nothing is lost or invented exactly when every listed bit is an unreconciled missing one.
   */
  lemma ReconciliationConserves(prio: MissingMap, deprio: MissingMap, reconciled: MissingBits,
                                unreconciled: MissingBits)
    requires Disjoint(prio, deprio)
    ensures var p, d := PrioBits(prio, reconciled, unreconciled), DeprioBits(prio, deprio, reconciled, unreconciled);
            var wanted := Bits(prio) + Bits(deprio) - reconciled;
            && p * d == {}
            && p * unreconciled == {}
            && p + d == wanted + Listed(prio, unreconciled)
            && (p + d == wanted <==> Listed(prio, unreconciled) <= wanted)
  {
    var p, d := PrioBits(prio, reconciled, unreconciled), DeprioBits(prio, deprio, reconciled, unreconciled);
    var wanted := Bits(prio) + Bits(deprio) - reconciled;
    var listed := Listed(prio, unreconciled);
    forall x ensures x in p + d <==> x in wanted + listed {
      assert !(x in Bits(prio) && x in Bits(deprio)) by {
        assert x in Bits(prio) && x in Bits(deprio) ==> x in Bits(prio) * Bits(deprio);
      }
      assert x in Bits(prio) ==> x.0 in prio;
    }
    forall x ensures x !in p * d {
      assert x in Bits(prio) && x in Bits(deprio) ==> x in Bits(prio) * Bits(deprio);
    }
  }

  // The staged entries hide the stored ones
  function Overlay(stored: MissingMap, staged: MissingMap): MissingMap {
    stored + staged
  }

  lemma OverlayBits(m: MissingMap, k: MissingKey, b: Bitmap)
    ensures Bits(m[k := b]) == (set x | x in Bits(m) && x.0 != k) + (set tx | tx in b :: (k, tx))
  {
    var m' := m[k := b];
    forall x ensures x in Bits(m') <==> x in (set x | x in Bits(m) && x.0 != k) + (set tx | tx in b :: (k, tx)) {
      if x in Bits(m') && x.0 != k {
        assert x in Bits(m);
      }
    }
  }

  lemma ClearBit(m: MissingMap, k: MissingKey, tx: uint64)
    requires k in m
    ensures Bits(m[k := m[k] - {tx}]) == Bits(m) - {(k, tx)}
  {
    OverlayBits(m, k, m[k] - {tx});
  }

  method ReflectReconciled(prio: MissingMap, deprio: MissingMap, reconciled: MissingBits)
    returns (sp: MissingMap, sd: MissingMap)
    ensures sp.Keys <= prio.Keys && sd.Keys <= deprio.Keys
    ensures Bits(Overlay(prio, sp)) == Bits(prio) - reconciled
    ensures Bits(Overlay(deprio, sd)) == Bits(deprio) - (reconciled - Bits(prio))
  {
    sp, sd := map[], map[];
    var rest := reconciled;
    assert Overlay(prio, sp) == prio && Overlay(deprio, sd) == deprio;
    while rest != {}
      invariant rest <= reconciled && sp.Keys <= prio.Keys && sd.Keys <= deprio.Keys
      invariant Bits(Overlay(prio, sp)) == Bits(prio) - (reconciled - rest)
      invariant Bits(Overlay(deprio, sd)) == Bits(deprio) - ((reconciled - rest) - Bits(prio))
      decreases rest
    {
      var x :| x in rest;
      var (k, tx) := x;
      var p, d := Overlay(prio, sp), Overlay(deprio, sd);
      assert x in Bits(p) <==> x in Bits(prio);
      if k in p && tx in p[k] {
        ClearBit(p, k, tx);
        sp := sp[k := p[k] - {tx}];
        assert Overlay(prio, sp) == p[k := p[k] - {tx}];
      } else if k in d && tx in d[k] {
        ClearBit(d, k, tx);
        sd := sd[k := d[k] - {tx}];
        assert Overlay(deprio, sd) == d[k := d[k] - {tx}];
      }
      rest := rest - {x};
    }
  }

  method ReflectPriority(prio: MissingMap, deprio: MissingMap, sp0: MissingMap, sd0: MissingMap,
                         unreconciled: MissingBits)
    returns (sp: MissingMap, sd: MissingMap)
    requires sp0.Keys <= prio.Keys
    ensures sp.Keys <= prio.Keys
    ensures Bits(Overlay(prio, sp)) == Bits(Overlay(prio, sp0)) - unreconciled
    ensures Bits(Overlay(deprio, sd)) == Bits(Overlay(deprio, sd0)) + Listed(prio, unreconciled)
  {
    sp, sd := sp0, sd0;
    var rest := unreconciled;
    ghost var done: MissingBits := {};
    ghost var before, after := Bits(Overlay(prio, sp0)), Bits(Overlay(deprio, sd0));
    while rest != {}
      invariant rest <= unreconciled && done == unreconciled - rest && sp.Keys <= prio.Keys
      invariant Bits(Overlay(prio, sp)) == before - done
      invariant Bits(Overlay(deprio, sd)) == after + Listed(prio, done)
      decreases rest
    {
      var x :| x in rest;
      if x.0 in prio {
        sp, sd := Deprioritize(prio, deprio, sp, sd, x.0, x.1);
      } else {
        assert x !in Bits(Overlay(prio, sp));
      }
      ListedWith(prio, done, x);
      rest, done := rest - {x}, done + {x};
    }
  }

  lemma ListedWith(prio: MissingMap, done: MissingBits, x: (MissingKey, uint64))
    ensures Listed(prio, done + {x}) == Listed(prio, done) + if x.0 in prio then {x} else {}
  {
  }

  method Deprioritize(prio: MissingMap, deprio: MissingMap, sp0: MissingMap, sd0: MissingMap, k: MissingKey, tx: uint64)
    returns (sp: MissingMap, sd: MissingMap)
    requires sp0.Keys <= prio.Keys && k in prio
    ensures sp.Keys <= prio.Keys
    ensures Bits(Overlay(prio, sp)) == Bits(Overlay(prio, sp0)) - {(k, tx)}
    ensures Bits(Overlay(deprio, sd)) == Bits(Overlay(deprio, sd0)) + {(k, tx)}
  {
    var p, d := Overlay(prio, sp0), Overlay(deprio, sd0);
    ClearBit(p, k, tx);
    sp := sp0[k := p[k] - {tx}];
    assert Overlay(prio, sp) == p[k := p[k] - {tx}];
    SetBitBits(d, k, tx);
    sd := sd0[k := (if k in d then d[k] else {}) + {tx}];
    assert Overlay(deprio, sd) == SetBit(d, k, tx);
  }

  // A staged bitmap replaces the stored one, an empty one deletes it
  function Written(stored: MissingMap, staged: MissingMap): MissingMap {
    map k | k in stored.Keys + staged.Keys && (k in staged ==> staged[k] != {}) :: if k in staged then staged[k]
        else stored[k]
  }

  lemma WrittenBits(stored: MissingMap, staged: MissingMap)
    requires NoEmptyBitmap(stored)
    ensures Written(stored, staged) == FromBits(Bits(Overlay(stored, staged)))
  {
    var w, o := Written(stored, staged), Overlay(stored, staged);
    FromBitsBits(Bits(o));
    forall x ensures x in Bits(w) <==> x in Bits(o) {
    }
    SameBits(w, FromBits(Bits(o)));
  }

  /** The index update of a reconciliation, whatever the iteration order of the maps it walks. */
  method UpdateMissing(prio: MissingMap, deprio: MissingMap, reconciled: MissingBits, unreconciled: MissingBits)
    returns (p: MissingMap, d: MissingMap)
    requires NoEmptyBitmap(prio) && NoEmptyBitmap(deprio)
    ensures p == FromBits(PrioBits(prio, reconciled, unreconciled))
    ensures d == FromBits(DeprioBits(prio, deprio, reconciled, unreconciled))
  {
    var sp, sd := ReflectReconciled(prio, deprio, reconciled);
    sp, sd := ReflectPriority(prio, deprio, sp, sd, unreconciled);
    WrittenBits(prio, sp);
    WrittenBits(deprio, sd);
    p, d := Written(prio, sp), Written(deprio, sd);
  }

  // ----- The documents

  datatype Staged = Staged(data: map<DataKey, CollWrites>, expiry: map<ExpiryKey, ExpiryData>)

  type ExpiryIndex = map<ExpiryKey, ExpiryData>

  ghost predicate Known(btl: BtlPolicy, entries: seq<DataEntry>) {
    forall i :: 0 <= i < |entries| ==> DataExpiringBlk(btl, entries[i].key).Some?
  }

  function ExpiryKeyOf(btl: BtlPolicy, k: DataKey): ExpiryKey
    requires DataExpiringBlk(btl, k).Some?
  {
    ExpiryKey(DataExpiringBlk(btl, k).value, k.blk)
  }

  predicate Expirable(btl: BtlPolicy, k: DataKey)
    requires DataExpiringBlk(btl, k).Some?
  {
    !NeverExpires(DataExpiringBlk(btl, k).value)
  }

  // Expirable data whose expiry entry is gone has been purged already and is skipped
  predicate Accepted(btl: BtlPolicy, stored: ExpiryIndex, k: DataKey)
    requires DataExpiringBlk(btl, k).Some?
  {
    Expirable(btl, k) ==> ExpiryKeyOf(btl, k) in stored
  }

  function Item(k: DataKey): NsCollTx {
    NsCollTx(k.ns, k.coll, k.tx)
  }

  // The expiry entry is read from the store every time, not from what is already staged
  function StageEntry(btl: BtlPolicy, stored: ExpiryIndex, st: Staged, e: DataEntry): Staged
    requires DataExpiringBlk(btl, e.key).Some?
  {
    if !Accepted(btl, stored, e.key) then st
    else if !Expirable(btl, e.key) then st.(data := st.data[e.key := e.value])
    else
      var ek := ExpiryKeyOf(btl, e.key);
      Staged(st.data[e.key := e.value], st.expiry[ek := stored[ek].(present := stored[ek].present + {Item(e.key)})])
  }

  function Stage(btl: BtlPolicy, stored: ExpiryIndex, entries: seq<DataEntry>): Staged
    requires Known(btl, entries)
  {
    if entries == [] then Staged(map[], map[])
    else StageEntry(btl, stored, Stage(btl, stored, entries[..|entries| - 1]), entries[|entries| - 1])
  }

  // The last entry offered for an expiry key
  function LastFor(btl: BtlPolicy, stored: ExpiryIndex, entries: seq<DataEntry>, ek: ExpiryKey): Option<DataKey>
    requires Known(btl, entries)
  {
    if entries == [] then None else
      var k := entries[|entries| - 1].key;
      if Expirable(btl, k) && ExpiryKeyOf(btl, k) == ek && ek in stored then Some(k)
      else LastFor(btl, stored, entries[..|entries| - 1], ek)
  }

  lemma {:induction false} StagedExpiry(btl: BtlPolicy, stored: ExpiryIndex, entries: seq<DataEntry>, ek: ExpiryKey)
    requires Known(btl, entries)
    ensures ek in Stage(btl, stored, entries).expiry <==> LastFor(btl, stored, entries, ek).Some?
    ensures ek in Stage(btl, stored, entries).expiry ==>
              var last := LastFor(btl, stored, entries, ek).value;
              && ek in stored && DataExpiringBlk(btl, last).Some? && Expirable(btl, last) &&
                  ExpiryKeyOf(btl, last) == ek
              && Stage(btl, stored, entries).expiry[ek] == stored[ek].(present := stored[ek].present + {Item(last)})
  {
    if entries != [] {
      StagedExpiry(btl, stored, entries[..|entries| - 1], ek);
    }
  }

  lemma {:induction false} StagedData(btl: BtlPolicy, stored: ExpiryIndex, entries: seq<DataEntry>)
    requires Known(btl, entries)
    ensures forall k :: k in Stage(btl, stored, entries).data ==>
              exists i :: 0 <= i < |entries| && entries[i] == DataEntry(k, Stage(btl, stored, entries).data[k]) &&
                  Accepted(btl, stored, k)
    ensures forall i :: 0 <= i < |entries| && Accepted(btl, stored, entries[i].key) ==>
        entries[i].key in Stage(btl, stored, entries).data
  {
    if entries != [] {
      var last := |entries| - 1;
      StagedData(btl, stored, entries[..last]);
      var st, st' := Stage(btl, stored, entries[..last]), Stage(btl, stored, entries);
      forall k | k in st'.data
        ensures exists i :: 0 <= i < |entries| && entries[i] == DataEntry(k, st'.data[k]) && Accepted(btl, stored, k)
      {
        if k == entries[last].key && Accepted(btl, stored, k) {
          assert entries[last] == DataEntry(k, st'.data[k]);
        } else {
          var i :| 0 <= i < last && entries[..last][i] == DataEntry(k, st.data[k]);
          assert entries[i] == DataEntry(k, st'.data[k]);
        }
      }
      forall i | 0 <= i < |entries| && Accepted(btl, stored, entries[i].key) ensures entries[i].key in st'.data {
        if i < last {
          assert entries[..last][i] == entries[i];
        }
      }
    }
  }

  /** Every staged expiry entry has staged data of its block beside it. */
  lemma {:induction false} StagedExpiryHasData(btl: BtlPolicy, stored: ExpiryIndex, entries: seq<DataEntry>)
    requires Known(btl, entries)
    ensures Stage(btl, stored, entries).expiry != map[] ==> Stage(btl, stored, entries).data != map[]
  {
    if entries != [] {
      StagedExpiryHasData(btl, stored, entries[..|entries| - 1]);
      var st := Stage(btl, stored, entries[..|entries| - 1]);
      var e := entries[|entries| - 1];
      assert e.key in st.data[e.key := e.value];
    }
  }

  const NO_DOC := Doc(map[], map[], {})

  // Existing entries first, staged ones over them; the index lists every expiry entry
  function Merge(doc: Doc, st: Staged): Doc {
    var expiry := doc.expiry + st.expiry;
    Doc(doc.data + st.data, expiry, set ek | ek in expiry :: ek.expiring)
  }

  lemma MergeSound(btl: BtlPolicy, blk: uint64, doc: Doc, entries: seq<DataEntry>)
    requires DocSound(btl, blk, doc) && Known(btl, entries) && OfBlock(blk, entries)
    ensures DocSound(btl, blk, Merge(doc, Stage(btl, doc.expiry, entries)))
  {
    var st := Stage(btl, doc.expiry, entries);
    var m := Merge(doc, st);
    StagedData(btl, doc.expiry, entries);
    forall ek | ek in m.expiry ensures EntrySound(btl, blk, ek, m.expiry[ek]) {
      StagedExpiry(btl, doc.expiry, entries, ek);
      if ek in doc.expiry {
        assert EntrySound(btl, blk, ek, doc.expiry[ek]);
      }
    }
  }

  /** Every expirable item offered is listed in the store already, or is the last one offered for its expiry key. */
  ghost predicate NothingClobbered(btl: BtlPolicy, stored: ExpiryIndex, entries: seq<DataEntry>)
    requires Known(btl, entries)
  {
    forall i :: 0 <= i < |entries| && Kept(btl, stored, entries[i].key) ==>
                  ListedOrLast(btl, stored, entries, entries[i].key)
  }

  predicate Kept(btl: BtlPolicy, stored: ExpiryIndex, k: DataKey)
    requires DataExpiringBlk(btl, k).Some?
  {
    Expirable(btl, k) && ExpiryKeyOf(btl, k) in stored
  }

  ghost predicate ListedOrLast(btl: BtlPolicy, stored: ExpiryIndex, entries: seq<DataEntry>, k: DataKey)
    requires Known(btl, entries) && DataExpiringBlk(btl, k).Some? && Kept(btl, stored, k)
  {
    var ek := ExpiryKeyOf(btl, k);
    Item(k) in stored[ek].present || LastFor(btl, stored, entries, ek) == Some(k)
  }

  // Whether an item kept by the reconciliation is listed afterwards
  lemma ListedAfterIff(btl: BtlPolicy, blk: uint64, doc: Doc, entries: seq<DataEntry>, i: nat)
    requires Known(btl, entries) && OfBlock(blk, entries) && i < |entries| && Kept(btl, doc.expiry, entries[i].key)
    ensures var ek := ExpiryKeyOf(btl, entries[i].key);
            Item(entries[i].key) in Merge(doc, Stage(btl, doc.expiry, entries)).expiry[ek].present
            <==> ListedOrLast(btl, doc.expiry, entries, entries[i].key)
  {
    var k := entries[i].key;
    var ek := ExpiryKeyOf(btl, k);
    StagedExpiry(btl, doc.expiry, entries, ek);
    LastForIsOffered(btl, doc.expiry, entries, ek);
  }

  lemma {:induction false} LastForIsOffered(btl: BtlPolicy, stored: ExpiryIndex, entries: seq<DataEntry>, ek: ExpiryKey)
    requires Known(btl, entries)
    ensures LastFor(btl, stored, entries, ek).Some? ==>
              exists i :: 0 <= i < |entries| && entries[i].key == LastFor(btl, stored, entries, ek).value
  {
    if entries != [] {
      var last := |entries| - 1;
      LastForIsOffered(btl, stored, entries[..last], ek);
      if LastFor(btl, stored, entries, ek).Some? && LastFor(btl, stored, entries, ek).value != entries[last].key {
        var i :| 0 <= i < last && entries[..last][i].key == LastFor(btl, stored, entries, ek).value;
        assert entries[i].key == LastFor(btl, stored, entries, ek).value;
      }
    }
  }

  /** The merged document covers its data exactly when no expiry entry was clobbered. */
  lemma MergeCoveredIff(btl: BtlPolicy, blk: uint64, doc: Doc, entries: seq<DataEntry>)
    requires DocSound(btl, blk, doc) && DocCovered(btl, blk, doc) && Known(btl, entries) && OfBlock(blk, entries)
    ensures DocSound(btl, blk, Merge(doc, Stage(btl, doc.expiry, entries)))
    ensures DocCovered(btl, blk, Merge(doc, Stage(btl, doc.expiry, entries))) <==>
        NothingClobbered(btl, doc.expiry, entries)
  {
    var st := Stage(btl, doc.expiry, entries);
    var m := Merge(doc, st);
    MergeSound(btl, blk, doc, entries);
    StagedData(btl, doc.expiry, entries);
    if NothingClobbered(btl, doc.expiry, entries) {
      forall k | k in m.data ensures KeyCovered(btl, m, k) {
        MergedKeyCovered(btl, blk, doc, entries, k);
      }
    }
    if DocCovered(btl, blk, m) {
      forall i | 0 <= i < |entries| && Kept(btl, doc.expiry, entries[i].key)
        ensures ListedOrLast(btl, doc.expiry, entries, entries[i].key)
      {
        assert entries[i].key in m.data;
        assert KeyCovered(btl, m, entries[i].key);
        ListedAfterIff(btl, blk, doc, entries, i);
      }
    }
  }

  lemma MergedKeyCovered(btl: BtlPolicy, blk: uint64, doc: Doc, entries: seq<DataEntry>, k: DataKey)
    requires DocSound(btl, blk, doc) && DocCovered(btl, blk, doc) && Known(btl, entries) && OfBlock(blk, entries)
    requires NothingClobbered(btl, doc.expiry, entries)
    requires k in Merge(doc, Stage(btl, doc.expiry, entries)).data && DataExpiringBlk(btl, k).Some?
    ensures KeyCovered(btl, Merge(doc, Stage(btl, doc.expiry, entries)), k)
  {
    var st := Stage(btl, doc.expiry, entries);
    var m := Merge(doc, st);
    if Expirable(btl, k) {
      var ek := ExpiryKeyOf(btl, k);
      StagedExpiry(btl, doc.expiry, entries, ek);
      if k in st.data {
        StagedData(btl, doc.expiry, entries);
        var i :| 0 <= i < |entries| && entries[i] == DataEntry(k, st.data[k]) && Accepted(btl, doc.expiry, k);
        ListedAfterIff(btl, blk, doc, entries, i);
      } else {
        assert KeyCovered(btl, doc, k);
      }
      assert ek in m.expiry;
    }
  }

  // ----- The whole reconciliation

  type Blocks = map<uint64, seq<TxPvtData>>

  function DocOf(docs: map<uint64, Doc>, b: uint64): Doc {
    if b in docs then docs[b] else NO_DOC
  }

  ghost predicate AllKnown(btl: BtlPolicy, blocks: Blocks) {
    forall b :: b in blocks ==> Known(btl, DataEntries(b, blocks[b]))
  }

  function StageOf(btl: BtlPolicy, docs: map<uint64, Doc>, b: uint64, pvt: seq<TxPvtData>): Staged
    requires Known(btl, DataEntries(b, pvt))
  {
    Stage(btl, DocOf(docs, b).expiry, DataEntries(b, pvt))
  }

  predicate Updated(btl: BtlPolicy, docs: map<uint64, Doc>, blocks: Blocks, b: uint64)
    requires AllKnown(btl, blocks)
  {
    b in blocks && StageOf(btl, docs, b, blocks[b]).data != map[]
  }

  function ReconciledDoc(btl: BtlPolicy, docs: map<uint64, Doc>, blocks: Blocks, b: uint64): Doc
    requires AllKnown(btl, blocks)
  {
    if Updated(btl, docs, blocks, b) then Merge(DocOf(docs, b), StageOf(btl, docs, b, blocks[b])) else DocOf(docs, b)
  }

  function ReconciledDocs(btl: BtlPolicy, docs: map<uint64, Doc>, blocks: Blocks): map<uint64, Doc>
    requires AllKnown(btl, blocks)
  {
    map b | b in docs.Keys + blocks.Keys && (b in docs || Updated(btl, docs, blocks, b)) ::
        ReconciledDoc(btl, docs, blocks, b)
  }

  function BitOf(k: DataKey): (MissingKey, uint64) {
    (MissingKey(k.ns, k.coll, k.blk), k.tx)
  }

  function ReconciledBits(btl: BtlPolicy, docs: map<uint64, Doc>, blocks: Blocks): MissingBits
    requires AllKnown(btl, blocks)
  {
    set b, k | b in blocks && k in StageOf(btl, docs, b, blocks[b]).data :: BitOf(k)
  }

  ghost function Reconciled(btl: BtlPolicy, s: State, blocks: Blocks, unreconciled: MissingBits): State
    requires AllKnown(btl, blocks)
  {
    var bits := ReconciledBits(btl, s.docs, blocks);
    s.(docs := ReconciledDocs(btl, s.docs, blocks),
       prio := FromBits(PrioBits(s.prio, bits, unreconciled)),
       deprio := FromBits(DeprioBits(s.prio, s.deprio, bits, unreconciled)))
  }

  // Old blocks are committed blocks
  predicate OldBlocks(s: State, blocks: Blocks) {
    !s.empty && forall b :: b in blocks ==> b <= s.last
  }

  lemma ReconciledDocSound(btl: BtlPolicy, s: State, blocks: Blocks, b: uint64)
    requires Sound(btl, s) && AllKnown(btl, blocks)
    ensures DocSound(btl, b, ReconciledDoc(btl, s.docs, blocks, b))
  {
    if b in blocks {
      EntriesAreOfBlock(b, blocks[b]);
      MergeSound(btl, b, DocOf(s.docs, b), DataEntries(b, blocks[b]));
    }
  }

  lemma ReconcileKeepsSound(btl: BtlPolicy, s: State, blocks: Blocks, unreconciled: MissingBits)
    requires Sound(btl, s) && AllKnown(btl, blocks) && OldBlocks(s, blocks)
    ensures Sound(btl, Reconciled(btl, s, blocks, unreconciled))
  {
    var s' := Reconciled(btl, s, blocks, unreconciled);
    forall b | b in s'.docs ensures DocSound(btl, b, s'.docs[b]) {
      ReconciledDocSound(btl, s, blocks, b);
    }
  }

  ghost predicate Unclobbered(btl: BtlPolicy, s: State, blocks: Blocks)
    requires AllKnown(btl, blocks)
  {
    forall b :: b in blocks ==> NothingClobbered(btl, DocOf(s.docs, b).expiry, DataEntries(b, blocks[b]))
  }

  lemma NothingStagedNothingClobbered(btl: BtlPolicy, stored: ExpiryIndex, entries: seq<DataEntry>)
    requires Known(btl, entries) && Stage(btl, stored, entries).data == map[]
    ensures NothingClobbered(btl, stored, entries)
  {
    StagedData(btl, stored, entries);
    forall i | 0 <= i < |entries| ensures !Kept(btl, stored, entries[i].key) {
      assert entries[i].key !in Stage(btl, stored, entries).data;
    }
  }

  lemma ReconciledDocCoveredIff(btl: BtlPolicy, s: State, blocks: Blocks, b: uint64)
    requires Sound(btl, s) && Covered(btl, s) && AllKnown(btl, blocks) && b in blocks
    ensures DocSound(btl, b, ReconciledDoc(btl, s.docs, blocks, b))
    ensures DocCovered(btl, b, ReconciledDoc(btl, s.docs, blocks, b)) <==>
            NothingClobbered(btl, DocOf(s.docs, b).expiry, DataEntries(b, blocks[b]))
  {
    var doc, entries := DocOf(s.docs, b), DataEntries(b, blocks[b]);
    EntriesAreOfBlock(b, blocks[b]);
    MergeCoveredIff(btl, b, doc, entries);
    if !Updated(btl, s.docs, blocks, b) {
      NothingStagedNothingClobbered(btl, doc.expiry, entries);
    }
  }

  /** A reconciliation keeps all expirable data covered exactly when it clobbers no expiry entry. */
  lemma ReconcileCoveredIff(btl: BtlPolicy, s: State, blocks: Blocks, unreconciled: MissingBits)
    requires Sound(btl, s) && Covered(btl, s) && AllKnown(btl, blocks) && OldBlocks(s, blocks)
    ensures Sound(btl, Reconciled(btl, s, blocks, unreconciled))
    ensures Covered(btl, Reconciled(btl, s, blocks, unreconciled)) <==> Unclobbered(btl, s, blocks)
  {
    var s' := Reconciled(btl, s, blocks, unreconciled);
    ReconcileKeepsSound(btl, s, blocks, unreconciled);
    forall b | b in blocks
      ensures DocSound(btl, b, ReconciledDoc(btl, s.docs, blocks, b))
      ensures DocCovered(btl, b, ReconciledDoc(btl, s.docs, blocks, b)) <==>
              NothingClobbered(btl, DocOf(s.docs, b).expiry, DataEntries(b, blocks[b]))
    {
      ReconciledDocCoveredIff(btl, s, blocks, b);
    }
    if Covered(btl, s') {
      forall b | b in blocks ensures DocCovered(btl, b, ReconciledDoc(btl, s.docs, blocks, b)) {
        if b in s'.docs {
          assert s'.docs[b] == ReconciledDoc(btl, s.docs, blocks, b);
        }
      }
    }
  }
}
