/** What holds after every run of the private data store's operations. */
module StoreRuns {
  import opened PvtTypes
  import opened Assembler
  import opened StoreEntries
  import opened PvtStore
  import opened Reconcile
  import opened MissingInfo
  import Eligibility

  datatype Op =
    | Commit(blk: uint64, pvt: seq<TxPvtData>, missing: TxMissing)
    | Purge(max: uint64)
    | CommitOld(blocks: Blocks, unreconciled: MissingBits)
    | Convert(events: EventMap)
    | Reopen

  type EventMap = map<uint64, Option<Eligibility.EventInfo>>

  function IndexOf(s: State, events: EventMap): Eligibility.Index {
    Eligibility.Index(s.prio, s.inelg, events)
  }

  // The eligibility events are processed to the end
  function ConvertedState(s: State, events: EventMap): State {
    var db := Eligibility.Converted(IndexOf(s, events));
    s.(prio := db.prio, inelg := db.inelg)
  }

  // Calls that succeed. A purge is scheduled for a block that was just committed, and a store whose last block is
  // block 0 is not reopened.
  ghost predicate Allowed(btl: BtlPolicy, s: State, op: Op) {
    match op
    case Commit(blk, pvt, missing) => CommitError(s, blk, EntriesOfBlock(btl, blk, pvt, missing)).None?
    case Purge(max) => !s.empty && max <= s.last
    case CommitOld(blocks, _) => AllKnown(btl, blocks) && OldBlocks(s, blocks)
    case Convert(_) => true
    case Reopen => Reopened(s).Ok? && (s.empty || s.last != 0)
  }

  ghost function Apply(btl: BtlPolicy, s: State, op: Op): State
    requires Allowed(btl, s, op)
  {
    match op
    case Commit(blk, pvt, missing) => Committed(s, blk, EntriesOfBlock(btl, blk, pvt, missing).value)
    case Purge(max) => Purged(s, max)
    case CommitOld(blocks, unreconciled) => Reconciled(btl, s, blocks, unreconciled)
    case Convert(events) => ConvertedState(s, events)
    case Reopen => Reopened(s).value
  }

  ghost predicate Run(btl: BtlPolicy, s: State, ops: seq<Op>, s': State)
    decreases |ops|
  {
    if ops == [] then s' == s
    else Allowed(btl, s, ops[0]) && Run(btl, Apply(btl, s, ops[0]), ops[1..], s')
  }

  lemma StepKeepsSound(btl: BtlPolicy, s: State, op: Op)
    requires Sound(btl, s) && Allowed(btl, s, op)
    ensures Sound(btl, Apply(btl, s, op))
  {
    match op
    case Commit(blk, pvt, missing) =>
      PreparedSound(btl, blk, pvt, missing);
      CommitKeepsSound(btl, s, blk, EntriesOfBlock(btl, blk, pvt, missing).value);
    case Purge(max) =>
      PurgeKeepsSound(btl, s, max);
    case CommitOld(blocks, unreconciled) =>
      ReconcileKeepsSound(btl, s, blocks, unreconciled);
    case Convert(_) =>
    case Reopen =>
      ReopenInvisibleIff(btl, s);
  }

  lemma {:induction false} RunKeepsSound(btl: BtlPolicy, s: State, ops: seq<Op>, s': State)
    requires Sound(btl, s) && Run(btl, s, ops, s')
    ensures Sound(btl, s')
    decreases |ops|
  {
    if ops != [] {
      StepKeepsSound(btl, s, ops[0]);
      RunKeepsSound(btl, Apply(btl, s, ops[0]), ops[1..], s');
    }
  }

  /** In every reachable state, purging up to a committed block leaves every read as it was. */
  lemma PurgeNeverSeen(btl: BtlPolicy, ops: seq<Op>, s: State, max: uint64, blk: uint64, filter: Filter)
    requires Run(btl, Initial(), ops, s) && max <= s.last
    ensures Read(Purged(s, max), btl, blk, filter) == Read(s, btl, blk, filter)
  {
    RunKeepsSound(btl, Initial(), ops, s);
    PurgeInvisible(btl, s, max, blk, filter);
  }

  /** In every reachable state a read lists each transaction once, in order, and in it each namespace once. */
  lemma ReadsWellGrouped(btl: BtlPolicy, ops: seq<Op>, s: State, blk: uint64, filter: Filter)
    requires Run(btl, Initial(), ops, s) && Read(s, btl, blk, filter).Ok?
    ensures WellGrouped(Read(s, btl, blk, filter).value)
  {
    RunKeepsSound(btl, Initial(), ops, s);
    if blk in s.docs {
      DocWellGrouped(btl, blk, s.docs[blk], filter, s.last);
    }
  }

  lemma DocWellGrouped(btl: BtlPolicy, blk: uint64, doc: Doc, filter: Filter, latest: uint64)
    requires DocSound(btl, blk, doc)
    ensures WellGrouped(Assembled(SortedEntries(Visible(doc, btl, filter, latest))))
  {
    var es := SortedEntries(Visible(doc, btl, filter, latest));
    forall i | 0 <= i < |es| ensures es[i].key.blk == blk && es[i].key.coll == es[i].value.coll {
      assert es[i] in es;
    }
    AssembledWellGrouped(blk, es);
  }

  // Every reconciliation of the run is unclobbered
  ghost predicate CleanRun(btl: BtlPolicy, s: State, ops: seq<Op>)
    decreases |ops|
  {
    ops == [] ||
    (Allowed(btl, s, ops[0]) && (ops[0].CommitOld? ==> Unclobbered(btl, s, ops[0].blocks))
     && CleanRun(btl, Apply(btl, s, ops[0]), ops[1..]))
  }

  lemma {:induction false} CleanRunKeepsCovered(btl: BtlPolicy, s: State, ops: seq<Op>, s': State)
    requires Sound(btl, s) && Covered(btl, s) && Run(btl, s, ops, s') && CleanRun(btl, s, ops)
    ensures Sound(btl, s') && Covered(btl, s')
    decreases |ops|
  {
    if ops != [] {
      var op := ops[0];
      StepKeepsSound(btl, s, op);
      match op {
        case Commit(blk, pvt, missing) =>
          PreparedSound(btl, blk, pvt, missing);
          CommitKeepsSound(btl, s, blk, EntriesOfBlock(btl, blk, pvt, missing).value);
        case Purge(max) =>
          PurgeKeepsSound(btl, s, max);
        case CommitOld(blocks, unreconciled) =>
          ReconcileCoveredIff(btl, s, blocks, unreconciled);
        case Convert(_) =>
        case Reopen =>
          ReopenInvisibleIff(btl, s);
      }
      CleanRunKeepsCovered(btl, Apply(btl, s, op), ops[1..], s');
    }
  }

  /** Over clean runs every purge is thorough: no stored data expires at or before the purged block. */
  lemma PurgeAlwaysThorough(btl: BtlPolicy, ops: seq<Op>, s: State, max: uint64, b: uint64, k: DataKey)
    requires Run(btl, Initial(), ops, s) && CleanRun(btl, Initial(), ops) && max < MAX_UINT64
    requires b in Purged(s, max).docs && k in Purged(s, max).docs[b].data
    ensures DataExpiringBlk(btl, k).Some? && DataExpiringBlk(btl, k).value > max
  {
    CleanRunKeepsCovered(btl, Initial(), ops, s);
    PurgeLeavesNothingExpired(btl, s, max, b, k);
  }

  // ----- The missing-data index

  function Keys(s: State): set<MissingKey> {
    s.prio.Keys + s.deprio.Keys + s.inelg.Keys
  }

  // No bitmap is empty, and every entry is of a committed block and of a collection the policy knows
  ghost predicate IndexInv(btl: BtlPolicy, s: State) {
    && NoEmptyBitmap(s.prio) && NoEmptyBitmap(s.deprio) && NoEmptyBitmap(s.inelg)
    && forall k :: k in Keys(s) ==> !s.empty && k.blk <= s.last && ExpiringBlk(btl, k).Some?
  }

  lemma StepKeys(btl: BtlPolicy, s: State, op: Op)
    requires Allowed(btl, s, op) && !op.Commit?
    ensures Keys(Apply(btl, s, op)) <= Keys(s)
  {
    match op
    case CommitOld(blocks, unreconciled) =>
      RewrittenKeys(s.prio, s.deprio, ReconciledBits(btl, s.docs, blocks), unreconciled);
    case _ =>
  }

  lemma RewrittenKeys(prio: MissingMap, deprio: MissingMap, reconciled: MissingBits, unreconciled: MissingBits)
    ensures FromBits(PrioBits(prio, reconciled, unreconciled)).Keys <= prio.Keys
    ensures FromBits(DeprioBits(prio, deprio, reconciled, unreconciled)).Keys <= prio.Keys + deprio.Keys
  {
    var p, d := PrioBits(prio, reconciled, unreconciled), DeprioBits(prio, deprio, reconciled, unreconciled);
    assert forall x :: x in p ==> x.0 in prio;
    assert forall x :: x in d ==> x.0 in prio || x.0 in deprio;
    assert FromBits(p).Keys == CollectionsOf(p) && FromBits(d).Keys == CollectionsOf(d);
  }

  lemma CommitKeepsIndex(btl: BtlPolicy, s: State, blk: uint64, entries: Entries)
    requires IndexInv(btl, s) && (s.empty || s.last < blk) && EntriesSound(btl, blk, entries)
    ensures IndexInv(btl, Committed(s, blk, entries))
  {
    var s' := Committed(s, blk, entries);
    forall k | k in Keys(s') ensures k.blk <= blk && ExpiringBlk(btl, k).Some? {
      assert k in Keys(s) || k in entries.elg || k in entries.inelg;
    }
  }

  lemma StepKeepsIndex(btl: BtlPolicy, s: State, op: Op)
    requires Sound(btl, s) && IndexInv(btl, s) && Allowed(btl, s, op)
    ensures IndexInv(btl, Apply(btl, s, op))
  {
    match op {
      case Commit(blk, pvt, missing) =>
        PreparedSound(btl, blk, pvt, missing);
        CommitKeepsIndex(btl, s, blk, EntriesOfBlock(btl, blk, pvt, missing).value);
      case CommitOld(blocks, unreconciled) =>
        StepKeys(btl, s, op);
        var bits := ReconciledBits(btl, s.docs, blocks);
        FromBitsBits(PrioBits(s.prio, bits, unreconciled));
        FromBitsBits(DeprioBits(s.prio, s.deprio, bits, unreconciled));
      case Reopen =>
        ReopenInvisibleIff(btl, s);
      case _ =>
        StepKeys(btl, s, op);
    }
  }

  /** In every reachable state no bitmap is empty and every entry is of a committed block and a known collection. */
  lemma {:induction false} RunKeepsIndex(btl: BtlPolicy, s: State, ops: seq<Op>, s': State)
    requires Sound(btl, s) && IndexInv(btl, s) && Run(btl, s, ops, s')
    ensures IndexInv(btl, s')
    decreases |ops|
  {
    if ops != [] {
      StepKeepsSound(btl, s, ops[0]);
      StepKeepsIndex(btl, s, ops[0]);
      RunKeepsIndex(btl, Apply(btl, s, ops[0]), ops[1..], s');
    }
  }

  // ----- The two eligible groups

  lemma UnionBits(a: MissingMap, b: MissingMap)
    requires a.Keys !! b.Keys
    ensures Bits(a + b) == Bits(a) + Bits(b)
  {
    forall x ensures x in Bits(a + b) <==> x in Bits(a) + Bits(b) {
    }
  }

  lemma NewBits(prio: MissingMap, deprio: MissingMap, elg: MissingMap)
    requires Disjoint(prio, deprio) && prio.Keys !! elg.Keys && deprio.Keys !! elg.Keys
    ensures Disjoint(prio + elg, deprio)
  {
    UnionBits(prio, elg);
    forall x ensures x !in Bits(prio + elg) * Bits(deprio) {
      assert x !in Bits(prio) * Bits(deprio);
    }
  }

  lemma CommitKeepsDisjoint(btl: BtlPolicy, s: State, blk: uint64, entries: Entries)
    requires IndexInv(btl, s) && Disjoint(s.prio, s.deprio) && (s.empty || s.last < blk)
    requires EntriesSound(btl, blk, entries)
    ensures Disjoint(s.prio + entries.elg, s.deprio)
  {
    forall k | k in Keys(s) ensures k !in entries.elg {
    }
    NewBits(s.prio, s.deprio, entries.elg);
  }

  lemma PurgeKeepsDisjoint(prio: MissingMap, deprio: MissingMap, dead: set<MissingKey>)
    requires Disjoint(prio, deprio)
    ensures Disjoint(prio - dead, deprio - dead)
  {
    assert Bits(prio - dead) <= Bits(prio);
    assert Bits(deprio - dead) <= Bits(deprio);
  }

  lemma ReconcileKeepsDisjoint(prio: MissingMap, deprio: MissingMap, reconciled: MissingBits,
                               unreconciled: MissingBits)
    requires Disjoint(prio, deprio)
    ensures Disjoint(FromBits(PrioBits(prio, reconciled, unreconciled)),
                     FromBits(DeprioBits(prio, deprio, reconciled, unreconciled)))
  {
    ReconciliationConserves(prio, deprio, reconciled, unreconciled);
    FromBitsBits(PrioBits(prio, reconciled, unreconciled));
    FromBitsBits(DeprioBits(prio, deprio, reconciled, unreconciled));
  }

  // No bit that becomes prioritized is deprioritized already
  ghost predicate Separate(s: State, events: EventMap) {
    forall k :: k in Eligibility.AllNamed(IndexOf(s, events)) && k in s.deprio ==> s.inelg[k] !! s.deprio[k]
  }

  /** A conversion keeps the two eligible groups disjoint exactly when no bit it moves is deprioritized. */
  lemma ConvertDisjointIff(s: State, events: EventMap)
    requires Disjoint(s.prio, s.deprio)
    ensures Disjoint(ConvertedState(s, events).prio, s.deprio) <==> Separate(s, events)
  {
    MovedDisjointIff(s.prio, s.inelg, s.deprio, Eligibility.AllNamed(IndexOf(s, events)));
  }

  lemma MovedDisjointIff(prio: MissingMap, inelg: MissingMap, deprio: MissingMap, ks: set<MissingKey>)
    requires Disjoint(prio, deprio) && ks <= inelg.Keys
    ensures Disjoint(Eligibility.Overlaid(prio, inelg, ks), deprio) <==>
            forall k :: k in ks && k in deprio ==> inelg[k] !! deprio[k]
  {
    var moved := Eligibility.Overlaid(prio, inelg, ks);
    if Disjoint(moved, deprio) {
      forall k | k in ks && k in deprio ensures inelg[k] !! deprio[k] {
        forall tx | tx in inelg[k] ensures tx !in deprio[k] {
          assert (k, tx) in Bits(moved);
          assert (k, tx) !in Bits(moved) * Bits(deprio);
        }
      }
    }
    if forall k :: k in ks && k in deprio ==> inelg[k] !! deprio[k] {
      forall k, tx | (k, tx) in Bits(moved) ensures (k, tx) !in Bits(deprio) {
        if k !in ks {
          assert (k, tx) in Bits(prio) && (k, tx) !in Bits(prio) * Bits(deprio);
        }
      }
    }
  }

  lemma StepKeepsDisjoint(btl: BtlPolicy, s: State, op: Op)
    requires Sound(btl, s) && IndexInv(btl, s) && Disjoint(s.prio, s.deprio)
    requires Allowed(btl, s, op) && (op.Convert? ==> Separate(s, op.events))
    ensures Disjoint(Apply(btl, s, op).prio, Apply(btl, s, op).deprio)
  {
    match op
    case Commit(blk, pvt, missing) =>
      PreparedSound(btl, blk, pvt, missing);
      CommitKeepsDisjoint(btl, s, blk, EntriesOfBlock(btl, blk, pvt, missing).value);
    case Purge(max) =>
      PurgeKeepsDisjoint(s.prio, s.deprio, SelectedDead(s.docs, max));
    case CommitOld(blocks, unreconciled) =>
      ReconcileKeepsDisjoint(s.prio, s.deprio, ReconciledBits(btl, s.docs, blocks), unreconciled);
    case Convert(events) =>
      ConvertDisjointIff(s, events);
    case Reopen =>
      ReopenInvisibleIff(btl, s);
  }

  // Every conversion of the run is separate
  ghost predicate SeparateRun(btl: BtlPolicy, s: State, ops: seq<Op>)
    decreases |ops|
  {
    ops == [] ||
    (Allowed(btl, s, ops[0]) && (ops[0].Convert? ==> Separate(s, ops[0].events))
     && SeparateRun(btl, Apply(btl, s, ops[0]), ops[1..]))
  }

  /** In every state such runs reach no missing bit is in both eligible groups. */
  lemma {:induction false} RunKeepsDisjoint(btl: BtlPolicy, s: State, ops: seq<Op>, s': State)
    requires Sound(btl, s) && IndexInv(btl, s) && Disjoint(s.prio, s.deprio)
    requires Run(btl, s, ops, s') && SeparateRun(btl, s, ops)
    ensures Disjoint(s'.prio, s'.deprio)
    decreases |ops|
  {
    if ops != [] {
      var op := ops[0];
      StepKeepsSound(btl, s, op);
      StepKeepsIndex(btl, s, op);
      StepKeepsDisjoint(btl, s, op);
      RunKeepsDisjoint(btl, Apply(btl, s, op), ops[1..], s');
    }
  }

  /** A purge deletes only missing-data entries that have expired. */
  lemma PurgeDeletesOnlyExpiredMissing(btl: BtlPolicy, s: State, max: uint64, k: MissingKey)
    requires Sound(btl, s) && k in SelectedDead(s.docs, max)
    ensures ExpiringBlk(btl, k).Some? && ExpiringBlk(btl, k).value <= max
  {
    var b :| b in s.docs && Selected(s.docs[b], max) && k in DeadMissing(s.docs[b].expiry, max);
    DeadIsExpired(btl, b, s.docs[b], max);
  }

  /** In every reachable state both missing-data reports succeed, and a purge up to a committed block keeps them. */
  lemma PurgeNeverReported(btl: BtlPolicy, ops: seq<Op>, s: State, max: uint64, blocks: int)
    requires Run(btl, Initial(), ops, s) && max <= s.last
    ensures Report(btl, s.prio, s.last, blocks).Ok? && Report(btl, s.deprio, s.last, blocks).Ok?
    ensures Report(btl, Purged(s, max).prio, s.last, blocks) == Report(btl, s.prio, s.last, blocks)
    ensures Report(btl, Purged(s, max).deprio, s.last, blocks) == Report(btl, s.deprio, s.last, blocks)
  {
    RunKeepsSound(btl, Initial(), ops, s);
    RunKeepsIndex(btl, Initial(), ops, s);
    var dead := SelectedDead(s.docs, max);
    forall k | k in dead ensures ExpiringBlk(btl, k).Some? && ExpiringBlk(btl, k).value <= s.last {
      PurgeDeletesOnlyExpiredMissing(btl, s, max, k);
    }
    assert forall k :: k in s.prio || k in s.deprio ==> k in Keys(s);
    PurgeInvisibleToReport(btl, s.prio, dead, s.last, blocks);
    PurgeInvisibleToReport(btl, s.deprio, dead, s.last, blocks);
  }

  // ----- Where the code falls short

  /** Purging drops a document whole once its data is gone, expiry entries of unexpired missing data included. */
  lemma PurgeThenReconcileAcceptsIff(btl: BtlPolicy, s: State, max: uint64, k: DataKey)
    requires Sound(btl, s) && DataExpiringBlk(btl, k).Some?
    requires k.blk in s.docs && Kept(btl, s.docs[k.blk].expiry, k)
    ensures Accepted(btl, DocOf(Purged(s, max).docs, k.blk).expiry, k) <==> !Emptied(s.docs[k.blk], max)
  {
  }
}
