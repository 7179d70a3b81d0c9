/** What conversions do to the missing bits over whole runs. */
module ConversionRuns {
  import opened PvtTypes
  import opened Assembler
  import opened StoreEntries
  import opened PvtStore
  import opened Reconcile
  import opened StoreRuns
  import Eligibility

  // A committed block misses no collection both eligibly and ineligibly
  predicate Uniform(op: Op) {
    op.Commit? ==> MissingKeys(op.blk, op.missing, true) !! MissingKeys(op.blk, op.missing, false)
  }

  predicate UniformRun(ops: seq<Op>) {
    forall i :: 0 <= i < |ops| ==> Uniform(ops[i])
  }

  predicate Apart(s: State) {
    (s.prio.Keys + s.deprio.Keys) !! s.inelg.Keys
  }

  lemma CommitKeepsApart(btl: BtlPolicy, s: State, blk: uint64, entries: Entries)
    requires IndexInv(btl, s) && Apart(s) && (s.empty || s.last < blk) && EntriesSound(btl, blk, entries)
    requires entries.elg.Keys !! entries.inelg.Keys
    ensures Apart(Committed(s, blk, entries))
  {
    forall k | k in Keys(s) ensures k !in entries.elg.Keys + entries.inelg.Keys {
    }
    StillApart(s.prio, s.deprio, s.inelg, entries.elg, entries.inelg);
  }

  lemma StillApart<K, V>(prio: map<K, V>, deprio: map<K, V>, inelg: map<K, V>, elg': map<K, V>, inelg': map<K, V>)
    requires (prio.Keys + deprio.Keys) !! inelg.Keys && elg'.Keys !! inelg'.Keys
    requires (prio.Keys + deprio.Keys + inelg.Keys) !! (elg'.Keys + inelg'.Keys)
    ensures ((prio + elg').Keys + deprio.Keys) !! (inelg + inelg').Keys
  {
    forall k | k in (inelg + inelg').Keys ensures k !in (prio + elg').Keys && k !in deprio.Keys {
      assert k in prio.Keys + deprio.Keys + inelg.Keys ==> k !in elg'.Keys + inelg'.Keys;
    }
  }

  lemma StepKeepsApart(btl: BtlPolicy, s: State, op: Op)
    requires Sound(btl, s) && IndexInv(btl, s) && Apart(s) && Allowed(btl, s, op) && Uniform(op)
    ensures Apart(Apply(btl, s, op))
  {
    match op
    case Commit(blk, pvt, missing) =>
      PreparedSound(btl, blk, pvt, missing);
      CommitKeepsApart(btl, s, blk, EntriesOfBlock(btl, blk, pvt, missing).value);
    case CommitOld(blocks, unreconciled) =>
      RewrittenKeys(s.prio, s.deprio, ReconciledBits(btl, s.docs, blocks), unreconciled);
    case _ =>
  }

  /** No ineligible entry shares its key with an eligible one, so every conversion of the run is separate. */
  lemma {:induction false} RunKeepsApart(btl: BtlPolicy, s: State, ops: seq<Op>, s': State)
    requires Sound(btl, s) && IndexInv(btl, s) && Apart(s) && Run(btl, s, ops, s') && UniformRun(ops)
    ensures Apart(s') && SeparateRun(btl, s, ops)
    decreases |ops|
  {
    if ops != [] {
      StepKeepsSound(btl, s, ops[0]);
      StepKeepsIndex(btl, s, ops[0]);
      StepKeepsApart(btl, s, ops[0]);
      RunKeepsApart(btl, Apply(btl, s, ops[0]), ops[1..], s');
    }
  }

  lemma MovedApart(db: Eligibility.Index, deprio: MissingMap, ks: set<MissingKey>, es: set<uint64>)
    requires db.prio.Keys !! db.inelg.Keys && deprio.Keys !! db.inelg.Keys && Disjoint(db.prio, deprio)
    ensures var db' := Eligibility.Moved(db, ks, es); Disjoint(db'.prio, deprio) && Disjoint(db'.prio, db'.inelg)
  {
    var db' := Eligibility.Moved(db, ks, es);
    assert db'.prio.Keys !! db'.inelg.Keys;
    forall k, tx | (k, tx) in Bits(db'.prio) ensures (k, tx) !in Bits(deprio) {
      if k !in ks || k !in db.inelg {
        assert (k, tx) in Bits(db.prio) && (k, tx) !in Bits(db.prio) * Bits(deprio);
      }
    }
  }

  /**
    After every run that commits only such blocks, whatever was reconciled, listed, purged and converted, no
    state on the way of the next conversion has lost a missing bit or holds one twice.
   */
  lemma UniformRunsLoseNothing(btl: BtlPolicy, ops: seq<Op>, s: State, events: EventMap, disk: Eligibility.Index)
    requires Run(btl, Initial(), ops, s) && UniformRun(ops) && Eligibility.Recovers(IndexOf(s, events), disk)
    ensures Eligibility.AllBits(disk) == Eligibility.AllBits(IndexOf(s, events))
    ensures Disjoint(disk.prio, s.deprio) && Disjoint(disk.prio, disk.inelg)
  {
    var db := IndexOf(s, events);
    RunKeepsApart(btl, Initial(), ops, s);
    RunKeepsDisjoint(btl, Initial(), ops, s);
    Eligibility.CrashLosesNothing(db, disk);
    var ks, es :| Eligibility.Reached(db, ks, es) && disk == Eligibility.Moved(db, ks, es);
    MovedApart(db, s.deprio, ks, es);
  }

  // ----- How far the condition can be relaxed

  ghost predicate KeepsBits(s: State, events: EventMap) {
    Eligibility.AllBits(Eligibility.Converted(IndexOf(s, events))) == Eligibility.AllBits(IndexOf(s, events))
  }

  // No event makes a conversion lose a bit
  ghost predicate NoneLosesBits(s: State) {
    forall events :: KeepsBits(s, events)
  }

  lemma KeepsBitsIff(s: State, events: EventMap)
    ensures KeepsBits(s, events) <==>
            forall k :: k in Eligibility.AllNamed(IndexOf(s, events)) && k in s.prio ==> s.prio[k] <= s.inelg[k]
  {
    var db := IndexOf(s, events);
    Eligibility.MoveConservesIff(db, Eligibility.AllNamed(db), Eligibility.Events(db));
  }

  // An event of the entry's block that names its collection
  function EventFor(k: MissingKey): EventMap {
    map[k.blk := Some(map[k.ns := [k.coll]])]
  }

  lemma EventNames(s: State, k: MissingKey)
    requires k in s.inelg && k.blk > 0
    ensures k in Eligibility.AllNamed(IndexOf(s, EventFor(k)))
  {
    var db := IndexOf(s, EventFor(k));
    assert k.blk in Eligibility.Events(db);
    assert Eligibility.InfoOf(db, k.blk) == map[k.ns := [k.coll]];
    assert k.coll in Eligibility.InfoOf(db, k.blk)[k.ns];
    assert k in Eligibility.Named(db, k.blk);
  }

  // Whoever misses a collection eligibly that another misses ineligibly misses it ineligibly too
  predicate Nested(blk: uint64, elg: MissingMap, inelg: MissingMap) {
    blk == 0 || forall k :: k in elg && k in inelg ==> elg[k] <= inelg[k]
  }

  lemma CommittedKeepsBitsIff(btl: BtlPolicy, s: State, blk: uint64, entries: Entries)
    requires IndexInv(btl, s) && Apart(s) && (s.empty || s.last < blk) && EntriesSound(btl, blk, entries)
    ensures NoneLosesBits(Committed(s, blk, entries)) <==> Nested(blk, entries.elg, entries.inelg)
  {
    var s' := Committed(s, blk, entries);
    if NoneLosesBits(s') {
      forall k | blk > 0 && k in entries.elg && k in entries.inelg ensures entries.elg[k] <= entries.inelg[k] {
        assert KeepsBits(s', EventFor(k));
        KeepsBitsIff(s', EventFor(k));
        EventNames(s', k);
      }
    }
    if Nested(blk, entries.elg, entries.inelg) {
      forall events ensures KeepsBits(s', events) {
        forall k | k in Eligibility.AllNamed(IndexOf(s', events)) && k in s'.prio
          ensures s'.prio[k] <= s'.inelg[k]
        {
          NamedIsNew(btl, s, blk, entries, events, k);
        }
        KeepsBitsIff(s', events);
      }
    }
  }

  // An entry in both groups after the commit is the block's own
  lemma NamedIsNew(btl: BtlPolicy, s: State, blk: uint64, entries: Entries, events: EventMap, k: MissingKey)
    requires IndexInv(btl, s) && Apart(s) && (s.empty || s.last < blk) && EntriesSound(btl, blk, entries)
    requires k in Eligibility.AllNamed(IndexOf(Committed(s, blk, entries), events))
    requires k in Committed(s, blk, entries).prio
    ensures blk > 0 && k in entries.elg && k in entries.inelg
  {
    assert k in Keys(s) ==> !s.empty && k.blk <= s.last;
    assert k in s.prio || k in s.inelg ==> k in Keys(s);
    assert k.blk > 0 by {
      var db := IndexOf(Committed(s, blk, entries), events);
      var e :| e in Eligibility.Events(db) && k in Eligibility.Named(db, e);
    }
  }

  lemma ReachedApart(btl: BtlPolicy, ops: seq<Op>, s: State)
    requires Run(btl, Initial(), ops, s) && UniformRun(ops)
    ensures Sound(btl, s) && IndexInv(btl, s) && Apart(s)
  {
    RunKeepsSound(btl, Initial(), ops, s);
    RunKeepsIndex(btl, Initial(), ops, s);
    RunKeepsApart(btl, Initial(), ops, s);
  }

  /** Right after the next block no conversion can lose a bit exactly when the block is nested or block 0. */
  lemma NextConversionKeepsBitsIff(btl: BtlPolicy, ops: seq<Op>, s: State, blk: uint64, pvt: seq<TxPvtData>,
                                   missing: TxMissing)
    requires Run(btl, Initial(), ops, s) && UniformRun(ops) && Allowed(btl, s, Commit(blk, pvt, missing))
    ensures NoneLosesBits(Apply(btl, s, Commit(blk, pvt, missing))) <==>
            Nested(blk, MissingEntries(blk, missing, true), MissingEntries(blk, missing, false))
  {
    ReachedApart(btl, ops, s);
    PreparedSound(btl, blk, pvt, missing);
    CommittedKeepsBitsIff(btl, s, blk, EntriesOfBlock(btl, blk, pvt, missing).value);
  }
}
