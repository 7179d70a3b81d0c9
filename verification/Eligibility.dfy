/** Moving missing-data entries from ineligible to prioritized when a peer joins a collection. */
module Eligibility {
  import opened PvtTypes
  import opened KeyEncoding
  import opened Sorting
  import opened StoreEntries

  // The collections an event names, by namespace
  type EventInfo = map<Name, seq<Name>>

  // The part of the missing-data index that the conversion reads and writes; an event may not decode
  datatype Index = Index(prio: MissingMap, inelg: MissingMap, events: map<uint64, Option<EventInfo>>)

  datatype BatchOp = DeleteInelg(k: MissingKey) | PutPrio(k: MissingKey, txs: Bitmap) | DeleteEvent(blk: uint64)

  function ApplyOp(db: Index, op: BatchOp): Index {
    match op
    case DeleteInelg(k) => db.(inelg := db.inelg - {k})
    case PutPrio(k, txs) => db.(prio := db.prio[k := txs])
    case DeleteEvent(blk) => db.(events := db.events - {blk})
  }

  function ApplyBatch(db: Index, batch: seq<BatchOp>): Index {
    if batch == [] then db else ApplyOp(ApplyBatch(db, batch[..|batch| - 1]), batch[|batch| - 1])
  }

  lemma ApplyAppend(db: Index, batch: seq<BatchOp>, op: BatchOp)
    ensures ApplyBatch(db, batch + [op]) == ApplyOp(ApplyBatch(db, batch), op)
  {
    assert (batch + [op])[..|batch|] == batch;
  }

  // ----- What the two scans deliver

  function ScannedEvents(db: Index): set<uint64> {
    set e | e in db.events && InRange(EncodeIndexKey(CollElg(MAX_UINT64)), EncodeIndexKey(CollElg(0)),
        EncodeIndexKey(CollElg(e)))
  }

  function ScannedInelg(db: Index, ns: Name, coll: Name, max: uint64): set<MissingKey> {
    set k | k in db.inelg && InRange(EncodeIndexKey(Inelg(MissingKey(ns, coll, max))),
                                     EncodeIndexKey(Inelg(MissingKey(ns, coll, 0))), EncodeIndexKey(Inelg(k)))
  }

  lemma ScannedEventsExactly(db: Index)
    ensures ScannedEvents(db) == set e | e in db.events && e > 0
  {
    forall e ensures e in ScannedEvents(db) <==> e in db.events && e > 0 {
      CollElgScanExact(CollElg(e));
    }
  }

  lemma ScannedInelgExactly(db: Index, ns: Name, coll: Name, max: uint64)
    ensures ScannedInelg(db, ns, coll, max) == OfColl(db, ns, coll, max)
  {
    forall k: MissingKey | k in db.inelg
      ensures k in ScannedInelg(db, ns, coll, max) <==> k.ns == ns && k.coll == coll && 0 < k.blk <= max
    {
      InelgScanExact(ns, coll, max, Inelg(k));
    }
  }

  // ----- What a conversion achieves

  // The events that are acted on
  function Events(db: Index): set<uint64> {
    set e | e in db.events && e > 0 && db.events[e].Some?
  }

  function InfoOf(db: Index, e: uint64): EventInfo {
    if e in db.events && db.events[e].Some? then db.events[e].value else map[]
  }

  predicate Names(info: EventInfo, ns: Name, coll: Name) {
    ns in info && coll in info[ns]
  }

  // The ineligible entries that one event makes eligible
  function Named(db: Index, e: uint64): set<MissingKey> {
    set k | k in db.inelg && Names(InfoOf(db, e), k.ns, k.coll) && 0 < k.blk <= e
  }

  predicate IsNamed(db: Index, k: MissingKey) {
    exists e :: e in Events(db) && k in Named(db, e)
  }

  function AllNamed(db: Index): set<MissingKey> {
    set k | k in db.inelg && IsNamed(db, k)
  }

  // The entries of ks moved with their bitmaps and the events of es gone
  function Moved(db: Index, ks: set<MissingKey>, es: set<uint64>): Index {
    Index(Overlaid(db.prio, db.inelg, ks), db.inelg - ks, db.events - es)
  }

  // from's values for the keys of ks laid over m
  function Overlaid<K, V>(m: map<K, V>, from: map<K, V>, ks: set<K>): (r: map<K, V>)
    ensures r.Keys == m.Keys + (ks * from.Keys)
    ensures forall k :: k in r ==> r[k] == if k in ks && k in from then from[k] else m[k]
  {
    m + map k | k in ks && k in from :: from[k]
  }

  lemma MoveTwice(db: Index, ks: set<MissingKey>, es: set<uint64>, ks': set<MissingKey>, es': set<uint64>)
    ensures Moved(Moved(db, ks, es), ks', es') == Moved(db, ks + ks', es + es')
  {
    OverlayTwice(db.prio, db.inelg, ks, ks');
    MinusTwice(db.inelg, ks, ks');
    MinusTwice(db.events, es, es');
  }

  lemma OverlayTwice<K, V>(m: map<K, V>, from: map<K, V>, ks: set<K>, ks': set<K>)
    ensures Overlaid(Overlaid(m, from, ks), from - ks, ks') == Overlaid(m, from, ks + ks')
  {
    var a, b := Overlaid(Overlaid(m, from, ks), from - ks, ks'), Overlaid(m, from, ks + ks');
    assert a.Keys == b.Keys;
    assert forall k :: k in a ==> a[k] == b[k];
  }

  lemma MinusTwice<K, V>(m: map<K, V>, a: set<K>, b: set<K>)
    ensures m - a - b == m - (a + b)
  {
  }

  lemma OverlayOne<K, V>(m: map<K, V>, from: map<K, V>, ks: set<K>, k: K)
    requires k in from
    ensures Overlaid(m, from, ks + {k}) == Overlaid(m, from, ks)[k := from[k]]
    ensures from - (ks + {k}) == from - ks - {k}
  {
    MinusTwice(from, ks, {k});
  }

  /** Exactly the named entries with 0 < block <= event block move, and every event is used up. */
  function Converted(db: Index): Index {
    Moved(db, AllNamed(db), Events(db))
  }

  // Every event that is gone had its entries moved
  ghost predicate Reached(db: Index, ks: set<MissingKey>, es: set<uint64>) {
    && ks <= AllNamed(db) && es <= Events(db)
    && forall e :: e in es ==> Named(db, e) <= ks
  }

  /** Whatever a crash leaves on disk, converting again ends where the uninterrupted conversion would. */
  lemma RerunRecovers(db: Index, ks: set<MissingKey>, es: set<uint64>)
    requires Reached(db, ks, es)
    ensures Converted(Moved(db, ks, es)) == Converted(db)
  {
    var mid := Moved(db, ks, es);
    RemainingNamed(db, ks, es);
    assert Events(mid) == Events(db) - es;
    MoveTwice(db, ks, es, AllNamed(mid), Events(mid));
    assert ks + AllNamed(mid) == AllNamed(db);
    assert es + Events(mid) == Events(db);
  }

  lemma RemainingNamed(db: Index, ks: set<MissingKey>, es: set<uint64>)
    requires Reached(db, ks, es)
    ensures AllNamed(Moved(db, ks, es)) == AllNamed(db) - ks
  {
    var mid := Moved(db, ks, es);
    forall k | k in mid.inelg ensures IsNamed(mid, k) <==> IsNamed(db, k) {
      if IsNamed(mid, k) {
        var e :| e in Events(mid) && k in Named(mid, e);
        assert e in Events(db) && k in Named(db, e);
      }
      if IsNamed(db, k) {
        var e :| e in Events(db) && k in Named(db, e);
        assert e !in es;
        assert e in Events(mid) && k in Named(mid, e);
      }
    }
  }

  function AllBits(db: Index): set<(MissingKey, uint64)> {
    Bits(db.prio) + Bits(db.inelg)
  }

  /** Moving overwrites, so every missing bit survives exactly when no moved entry shadows other prioritized bits. */
  lemma MoveConservesIff(db: Index, ks: set<MissingKey>, es: set<uint64>)
    requires ks <= db.inelg.Keys
    ensures AllBits(Moved(db, ks, es)) == AllBits(db) <==>
            forall k :: k in ks && k in db.prio ==> db.prio[k] <= db.inelg[k]
  {
    var mid := Moved(db, ks, es);
    forall k, tx ensures (k, tx) in AllBits(mid) <==>
        (k, tx) in Bits(db.inelg) || (k !in ks && (k, tx) in Bits(db.prio)) {
    }
    if AllBits(mid) == AllBits(db) {
      forall k, tx | k in ks && k in db.prio && tx in db.prio[k] ensures tx in db.inelg[k] {
        assert (k, tx) in AllBits(db);
        assert (k, tx) in AllBits(mid);
      }
    }
    if forall k :: k in ks && k in db.prio ==> db.prio[k] <= db.inelg[k] {
      forall x ensures x in AllBits(mid) <==> x in AllBits(db) {
        assert x == (x.0, x.1);
      }
    }
  }

  // ----- The conversion

  // The disk has moved the entries of done; with the pending batch it will have moved those of ks
  datatype Progress = Progress(doneKs: set<MissingKey>, doneEs: set<uint64>, ks: set<MissingKey>, es: set<uint64>)

  ghost predicate Tracks(db0: Index, disk: Index, batch: seq<BatchOp>, p: Progress) {
    && Reached(db0, p.doneKs, p.doneEs) && disk == Moved(db0, p.doneKs, p.doneEs)
    && Reached(db0, p.ks, p.es) && ApplyBatch(disk, batch) == Moved(db0, p.ks, p.es)
    && p.doneKs <= p.ks
  }

  lemma ConvertTracks(db0: Index, disk: Index, batch: seq<BatchOp>, p: Progress, k: MissingKey)
    requires Tracks(db0, disk, batch, p) && k in AllNamed(db0)
    ensures Tracks(db0, disk, batch + [DeleteInelg(k)] + [PutPrio(k, db0.inelg[k])], p.(ks := p.ks + {k}))
  {
    ApplyAppend(disk, batch, DeleteInelg(k));
    ApplyAppend(disk, batch + [DeleteInelg(k)], PutPrio(k, db0.inelg[k]));
    ConvertApplies(db0, p.ks, p.es, k);
    ReachedMore(db0, p.ks, p.es, k);
  }

  lemma ConvertApplies(db: Index, ks: set<MissingKey>, es: set<uint64>, k: MissingKey)
    requires k in db.inelg
    ensures ApplyOp(ApplyOp(Moved(db, ks, es), DeleteInelg(k)), PutPrio(k, db.inelg[k])) == Moved(db, ks + {k}, es)
  {
    OverlayOne(db.prio, db.inelg, ks, k);
  }

  lemma ReachedMore(db: Index, ks: set<MissingKey>, es: set<uint64>, k: MissingKey)
    requires Reached(db, ks, es) && k in AllNamed(db)
    ensures Reached(db, ks + {k}, es)
  {
  }

  lemma EventTracks(db0: Index, disk: Index, batch: seq<BatchOp>, p: Progress, e: uint64)
    requires Tracks(db0, disk, batch, p) && e in Events(db0) && Named(db0, e) <= p.ks
    ensures Tracks(db0, disk, batch + [DeleteEvent(e)], p.(es := p.es + {e}))
  {
    ApplyAppend(disk, batch, DeleteEvent(e));
    MinusTwice(db0.events, p.es, {e});
  }

  lemma FlushTracks(db0: Index, disk: Index, batch: seq<BatchOp>, p: Progress)
    requires Tracks(db0, disk, batch, p)
    ensures Tracks(db0, ApplyBatch(disk, batch), [], Progress(p.ks, p.es, p.ks, p.es))
  {
  }

  // A state from which converting again loses nothing of what converting db0 gives
  ghost predicate Recovers(db0: Index, db: Index) {
    Converted(db) == Converted(db0) && exists ks, es :: Reached(db0, ks, es) && db == Moved(db0, ks, es)
  }

  /** In no state the disk goes through is a missing bit lost, unless some named entry shadows prioritized bits. */
  lemma CrashLosesNothing(db0: Index, disk: Index)
    requires Recovers(db0, disk)
    requires forall k :: k in AllNamed(db0) && k in db0.prio ==> db0.prio[k] <= db0.inelg[k]
    ensures AllBits(disk) == AllBits(db0)
  {
    var ks, es :| Reached(db0, ks, es) && disk == Moved(db0, ks, es);
    MoveConservesIff(db0, ks, es);
  }

  lemma TracksRecovers(db0: Index, disk: Index, batch: seq<BatchOp>, p: Progress)
    requires Tracks(db0, disk, batch, p)
    ensures Recovers(db0, disk)
  {
    RerunRecovers(db0, p.doneKs, p.doneEs);
  }

  // The disk went through further states, and every one of them can be recovered from
  ghost predicate WentOn(db0: Index, h: seq<Index>, h': seq<Index>) {
    h <= h' && forall i :: |h| <= i < |h'| ==> Recovers(db0, h'[i])
  }

  lemma WroteOne(db0: Index, disk: Index, p: Progress, h: seq<Index>)
    requires Tracks(db0, disk, [], p)
    ensures WentOn(db0, h, h + [disk])
  {
    TracksRecovers(db0, disk, [], p);
  }

  lemma WroteMore(db0: Index, h: seq<Index>, h1: seq<Index>, h2: seq<Index>)
    requires WentOn(db0, h, h1) && WentOn(db0, h1, h2)
    ensures WentOn(db0, h, h2)
  {
    assert forall i :: |h| <= i < |h1| ==> h2[i] == h1[i];
  }

  // The entries of one collection that an event of block e makes eligible
  function OfColl(db: Index, ns: Name, coll: Name, e: uint64): set<MissingKey> {
    set k | k in db.inelg && k.ns == ns && k.coll == coll && 0 < k.blk <= e
  }

  // The values are those of the entries to move
  ghost predicate Delivers(db0: Index, values: MissingMap, ks: set<MissingKey>) {
    ks <= AllNamed(db0) && forall k :: k in ks ==> k in values && values[k] == db0.inelg[k]
  }

  // The collection's entries are moved, or the disk still holds them unchanged
  lemma ScanComplete(db0: Index, disk: Index, batch: seq<BatchOp>, p: Progress, ns: Name, coll: Name, e: uint64)
    requires Tracks(db0, disk, batch, p) && e in Events(db0) && Names(InfoOf(db0, e), ns, coll)
    ensures OfColl(db0, ns, coll, e) <= p.ks + OfColl(disk, ns, coll, e)
    ensures Delivers(db0, disk.inelg, OfColl(disk, ns, coll, e))
  {
    forall k | k in OfColl(disk, ns, coll, e) ensures k in AllNamed(db0) {
      assert k in Named(db0, e);
    }
  }

  const INELG_ORDER: MissingKey -> seq<nat> := (k: MissingKey) => EncodeIndexKey(Inelg(k))
  const EVENT_ORDER: uint64 -> seq<nat> := (e: uint64) => EncodeIndexKey(CollElg(e))

  lemma IndexKeysSeparate()
    ensures Injective(INELG_ORDER) && Injective(EVENT_ORDER)
  {
    forall a, b | INELG_ORDER(a) == INELG_ORDER(b) ensures a == b {
      IndexKeysInjective(Inelg(a), Inelg(b));
    }
    forall a, b | EVENT_ORDER(a) == EVENT_ORDER(b) ensures a == b {
      IndexKeysInjective(CollElg(a), CollElg(b));
    }
  }

  // A batch is written once it is over the maximum size, and only then
  predicate Batched(max: int, db: Index, full: seq<BatchOp>, db': Index, rest: seq<BatchOp>) {
    if |full| > max then db' == ApplyBatch(db, full) && rest == [] else db' == db && rest == full
  }

  class CollElgProc {
    const maxBatchSize: int
    var db: Index
    // Every state the disk has been in, in order
    ghost var history: seq<Index>

    constructor (db: Index, maxBatchSize: int)
      ensures this.db == db && this.maxBatchSize == maxBatchSize && history == [db]
    {
      this.db, this.maxBatchSize := db, maxBatchSize;
      history := [db];
    }

    method WriteBatch(batch: seq<BatchOp>)
      modifies this
      ensures db == ApplyBatch(old(db), batch)
      ensures history == old(history) + [db]
    {
      db := Apply(db, batch);
      history := history + [db];
    }

    static method Apply(db: Index, batch: seq<BatchOp>) returns (r: Index)
      ensures r == ApplyBatch(db, batch)
    {
      r := db;
      for i := 0 to |batch|
        invariant r == ApplyBatch(db, batch[..i])
      {
        assert batch[..i + 1] == batch[..i] + [batch[i]];
        ApplyAppend(db, batch[..i], batch[i]);
        r := ApplyOp(r, batch[i]);
      }
      assert batch[..|batch|] == batch;
    }

    // Adds one entry to the batch, which is written once it is over the maximum size
    method AddEntry(k: MissingKey, txs: Bitmap, batch: seq<BatchOp>, ghost db0: Index, ghost p: Progress)
      returns (batch': seq<BatchOp>, ghost p': Progress)
      requires Tracks(db0, db, batch, p) && k in AllNamed(db0) && txs == db0.inelg[k]
      modifies this
      ensures Tracks(db0, db, batch', p') && k in p'.ks && p.ks <= p'.ks && p.es == p'.es
      ensures Batched(maxBatchSize, old(db), batch + [DeleteInelg(k)] + [PutPrio(k, txs)], db, batch')
      ensures WentOn(db0, old(history), history)
    {
      ConvertTracks(db0, db, batch, p, k);
      batch', p' := batch + [DeleteInelg(k)] + [PutPrio(k, txs)], p.(ks := p.ks + {k});
      if |batch'| > maxBatchSize {
        FlushTracks(db0, db, batch', p');
        WriteBatch(batch');
        batch', p' := [], Progress(p'.ks, p'.es, p'.ks, p'.es);
        WroteOne(db0, db, p', old(history));
      }
    }

    // The keys an iterator over the collection's range delivers, in the order of their encodings
    method InelgKeys(ns: Name, coll: Name, max: uint64) returns (ks: seq<MissingKey>)
      ensures Range(ks) == OfColl(db, ns, coll, max)
    {
      ScannedInelgExactly(db, ns, coll, max);
      IndexKeysSeparate();
      ks := Sort(INELG_ORDER, ScannedInelg(db, ns, coll, max));
    }

    method EventBlocks() returns (es: seq<uint64>)
      ensures Range(es) == ScannedEvents(db)
    {
      IndexKeysSeparate();
      es := Sort(EVENT_ORDER, ScannedEvents(db));
    }

    // Moves the entries of one collection
    method ConvertEntries(ns: Name, coll: Name, e: uint64, batch: seq<BatchOp>, ghost db0: Index, ghost p: Progress)
      returns (batch': seq<BatchOp>, ghost p': Progress)
      requires Tracks(db0, db, batch, p) && e in Events(db0) && Names(InfoOf(db0, e), ns, coll)
      modifies this
      ensures Tracks(db0, db, batch', p') && OfColl(db0, ns, coll, e) <= p'.ks
      ensures p.ks <= p'.ks && p.es == p'.es && WentOn(db0, old(history), history)
    {
      var ks := InelgKeys(ns, coll, e);
      ScanComplete(db0, db, batch, p, ns, coll, e);
      batch', p' := AddEntries(ks, db.inelg, batch, db0, p);
    }

    method AddEntries(ks: seq<MissingKey>, values: MissingMap, batch: seq<BatchOp>, ghost db0: Index, ghost p: Progress)
      returns (batch': seq<BatchOp>, ghost p': Progress)
      requires Tracks(db0, db, batch, p) && Delivers(db0, values, Range(ks))
      modifies this
      ensures Tracks(db0, db, batch', p') && Range(ks) <= p'.ks
      ensures p.ks <= p'.ks && p.es == p'.es && WentOn(db0, old(history), history)
    {
      batch', p' := batch, p;
      for i := 0 to |ks|
        invariant Tracks(db0, db, batch', p')
        invariant Range(ks[..i]) <= p'.ks
        invariant p.ks <= p'.ks && p.es == p'.es && WentOn(db0, old(history), history)
      {
        RangeNext(ks, i);
        ghost var p1, h1 := p', history;
        batch', p' := AddEntry(ks[i], values[ks[i]], batch', db0, p1);
        WroteMore(db0, old(history), h1, history);
      }
      RangeWhole(ks);
    }

    // Moves the entries of the collections an event names in one namespace
    method ConvertNamespace(ns: Name, e: uint64, colls: seq<Name>, batch: seq<BatchOp>, ghost db0: Index,
                            ghost p: Progress)
      returns (batch': seq<BatchOp>, ghost p': Progress)
      requires Tracks(db0, db, batch, p) && e in Events(db0) && ns in InfoOf(db0, e) && colls == InfoOf(db0, e)[ns]
      modifies this
      ensures Tracks(db0, db, batch', p') && NamedIn(db0, e, ns) <= p'.ks
      ensures p.ks <= p'.ks && p.es == p'.es && WentOn(db0, old(history), history)
    {
      batch', p' := batch, p;
      for i := 0 to |colls|
        invariant Tracks(db0, db, batch', p')
        invariant OfColls(db0, ns, colls[..i], e) <= p'.ks
        invariant p.ks <= p'.ks && p.es == p'.es && WentOn(db0, old(history), history)
      {
        NextColl(db0, ns, colls, e, i);
        ghost var p1, h1 := p', history;
        batch', p' := ConvertEntries(ns, colls[i], e, batch', db0, p1);
        WroteMore(db0, old(history), h1, history);
      }
      NamespaceDone(db0, e, ns);
    }

    // Moves the entries of every collection an event names, namespaces in any order
    method ConvertEvent(e: uint64, info: EventInfo, batch: seq<BatchOp>, ghost db0: Index, ghost p: Progress)
      returns (batch': seq<BatchOp>, ghost p': Progress)
      requires Tracks(db0, db, batch, p) && e in Events(db0) && info == InfoOf(db0, e)
      modifies this
      ensures Tracks(db0, db, batch', p') && Named(db0, e) <= p'.ks
      ensures p.ks <= p'.ks && p.es == p'.es && WentOn(db0, old(history), history)
    {
      batch', p' := batch, p;
      var nss := Elements(info.Keys);
      for i := 0 to |nss|
        invariant Tracks(db0, db, batch', p')
        invariant NamedBy(db0, e, nss[..i]) <= p'.ks
        invariant p.ks <= p'.ks && p.es == p'.es && WentOn(db0, old(history), history)
      {
        NextNamespace(db0, e, nss, i);
        ghost var p1, h1 := p', history;
        batch', p' := ConvertNamespace(nss[i], e, info[nss[i]], batch', db0, p1);
        WroteMore(db0, old(history), h1, history);
      }
      EventDone(db0, e, nss);
    }

    /**
     * Whatever the batch size and the order of namespaces, the disk ends as the converted index, and from every
     * state it writes a rerun after a crash would end there too.
     */
    method ProcessCollElgEvents()
      modifies this
      ensures db == Converted(old(db))
      ensures WentOn(old(db), old(history), history)
      ensures |history| > |old(history)| && history[|history| - 1] == db
    {
      ghost var db0, p := db, Progress({}, {}, {}, {});
      var batch: seq<BatchOp> := [];
      var snapshot := db.events;
      var es := EventBlocks();
      StartTracks(db0);
      for i := 0 to |es|
        invariant Tracks(db0, db, batch, p)
        invariant ActedOn(db0, es[..i]) == p.es
        invariant WentOn(db0, old(history), history)
      {
        ActedNext(db0, es, i);
        var info := snapshot[es[i]];
        if info.None? {
          continue;
        }
        ghost var p1, h1 := p, history;
        batch, p := ConvertEvent(es[i], info.value, batch, db0, p1);
        WroteMore(db0, old(history), h1, history);
        EventTracks(db0, db, batch, p, es[i]);
        batch, p := batch + [DeleteEvent(es[i])], p.(es := p.es + {es[i]});
      }
      ActedAll(db0, es);
      AllReached(db0, p.ks);
      FlushTracks(db0, db, batch, p);
      ghost var h1 := history;
      WriteBatch(batch);
      WroteOne(db0, db, Progress(p.ks, p.es, p.ks, p.es), h1);
      WroteMore(db0, old(history), h1, history);
    }
  }

  function ActedOn(db: Index, es: seq<uint64>): set<uint64> {
    Range(es) * Events(db)
  }

  lemma ActedNext(db: Index, es: seq<uint64>, i: nat)
    requires i < |es| && Range(es) == ScannedEvents(db)
    ensures es[i] in db.events && (db.events[es[i]].Some? <==> es[i] in Events(db))
    ensures ActedOn(db, es[..i + 1]) == ActedOn(db, es[..i]) + if es[i] in Events(db) then {es[i]} else {}
  {
    ScannedEventsExactly(db);
    RangeNext(es, i);
  }

  lemma ActedAll(db: Index, es: seq<uint64>)
    requires Range(es) == ScannedEvents(db)
    ensures ActedOn(db, es[..|es|]) == Events(db)
  {
    ScannedEventsExactly(db);
    RangeWhole(es);
  }

  lemma StartTracks(db: Index)
    ensures Tracks(db, db, [], Progress({}, {}, {}, {}))
  {
    assert db.inelg - {} == db.inelg && db.events - {} == db.events;
    assert Overlaid(db.prio, db.inelg, {}) == db.prio;
  }

  lemma AllReached(db: Index, ks: set<MissingKey>)
    requires Reached(db, ks, Events(db))
    ensures ks == AllNamed(db)
  {
  }

  // What an event names in one namespace
  function NamedIn(db: Index, e: uint64, ns: Name): set<MissingKey> {
    set k | k in Named(db, e) && k.ns == ns
  }

  // What it names in the given namespaces
  function NamedBy(db: Index, e: uint64, nss: seq<Name>): set<MissingKey> {
    set k | k in Named(db, e) && k.ns in nss
  }

  lemma NextNamespace(db: Index, e: uint64, nss: seq<Name>, i: nat)
    requires i < |nss|
    ensures NamedBy(db, e, nss[..i + 1]) == NamedBy(db, e, nss[..i]) + NamedIn(db, e, nss[i])
    ensures nss[i] in nss
  {
    assert nss[..i + 1] == nss[..i] + [nss[i]];
  }

  lemma EventDone(db: Index, e: uint64, nss: seq<Name>)
    requires forall ns :: ns in InfoOf(db, e) ==> ns in nss
    ensures NamedBy(db, e, nss[..|nss|]) == Named(db, e)
  {
    assert nss[..|nss|] == nss;
  }

  function OfColls(db: Index, ns: Name, colls: seq<Name>, e: uint64): set<MissingKey> {
    set k | k in db.inelg && k.ns == ns && k.coll in colls && 0 < k.blk <= e
  }

  lemma NextColl(db: Index, ns: Name, colls: seq<Name>, e: uint64, i: nat)
    requires i < |colls|
    ensures OfColls(db, ns, colls[..i + 1], e) == OfColls(db, ns, colls[..i], e) + OfColl(db, ns, colls[i], e)
    ensures colls[i] in colls
  {
    assert colls[..i + 1] == colls[..i] + [colls[i]];
  }

  lemma NamespaceDone(db: Index, e: uint64, ns: Name)
    requires ns in InfoOf(db, e)
    ensures NamedIn(db, e, ns) == OfColls(db, ns, InfoOf(db, e)[ns][..|InfoOf(db, e)[ns]|], e)
  {
    var colls := InfoOf(db, e)[ns];
    assert colls[..|colls|] == colls;
  }
}
