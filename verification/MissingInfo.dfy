/** Reporting the missing data of the most recent blocks from one group of the missing-data index. */
module MissingInfo {
  import opened Digits
  import opened PvtTypes
  import opened KeyEncoding
  import opened Sorting
  import opened StoreEntries
  import opened Reconcile

  // The keys the range scan delivers
  function Scanned(group: Byte, m: MissingMap, last: uint64): set<MissingKey> {
    set k | k in m && InRange([group] + ReverseOrder(last), [group] + ReverseOrder(0), EncodeEligible(group, k))
  }

  lemma ScannedExactly(group: Byte, m: MissingMap, last: uint64)
    requires group == ELG_PRIO || group == ELG_DEPRIO
    ensures Scanned(group, m, last) == set k | k in m && 0 < k.blk <= last
  {
    forall k
      ensures InRange([group] + ReverseOrder(last), [group] + ReverseOrder(0), EncodeEligible(group, k)) <==>
              0 < k.blk <= last
    {
      EligibleScanExact(group, last, if group == ELG_PRIO then Prio(k) else Deprio(k));
    }
  }

  predicate LiveKey(btl: BtlPolicy, k: MissingKey, last: uint64) {
    ExpiringBlk(btl, k).Some? && last < ExpiringBlk(btl, k).value
  }

  function Live(btl: BtlPolicy, m: MissingMap, last: uint64): set<MissingKey> {
    set k | k in m && 0 < k.blk <= last && LiveKey(btl, k, last)
  }

  function BlocksOf(ks: set<MissingKey>): set<uint64> {
    set k | k in ks :: k.blk
  }

  function Newer(blocks: set<uint64>, b: uint64): set<uint64> {
    set x | x in blocks && x > b
  }

  function BitsOf(m: MissingMap, ks: set<MissingKey>): MissingBits {
    set k, tx | k in m && k in ks && tx in m[k] :: (k, tx)
  }

  // Fewer than max blocks with an unexpired entry are newer
  function Recent(ks: set<MissingKey>, max: nat): set<MissingKey> {
    set k | k in ks && |Newer(BlocksOf(ks), k.blk)| < max
  }

  /** Every bit of the unexpired entries of the max most recent blocks that have one. */
  function RecentInfo(btl: BtlPolicy, m: MissingMap, last: uint64, max: nat): MissingBits {
    BitsOf(m, Recent(Live(btl, m, last), max))
  }

  // ----- The order of the scan

  // The live keys among the first n
  function Seen(ks: seq<MissingKey>, live: set<MissingKey>, n: nat): set<MissingKey>
    requires n <= |ks|
  {
    set i | 0 <= i < n && ks[i] in live :: ks[i]
  }

  lemma SeenNext(ks: seq<MissingKey>, live: set<MissingKey>, n: nat)
    requires n < |ks|
    ensures Seen(ks, live, n + 1) == if ks[n] in live then Seen(ks, live, n) + {ks[n]} else Seen(ks, live, n)
  {
  }

  ghost predicate NewestFirst(ks: seq<MissingKey>) {
    forall i, j :: 0 <= i < j < |ks| ==> ks[i].blk >= ks[j].blk
  }

  lemma EligibleKeysSeparate(group: Byte)
    requires group == ELG_PRIO || group == ELG_DEPRIO
    ensures Injective((k: MissingKey) => EncodeEligible(group, k))
  {
    forall a, b | EncodeEligible(group, a) == EncodeEligible(group, b) ensures a == b {
      if group == ELG_PRIO {
        IndexKeysInjective(Prio(a), Prio(b));
      } else {
        IndexKeysInjective(Deprio(a), Deprio(b));
      }
    }
  }

  lemma ScanOrder(group: Byte, ks: seq<MissingKey>)
    requires SortedBy((k: MissingKey) => EncodeEligible(group, k), ks)
    ensures NewestFirst(ks)
  {
    var enc := (k: MissingKey) => EncodeEligible(group, k);
    forall i, j | 0 <= i < j < |ks| ensures ks[i].blk >= ks[j].blk {
      assert Less(enc(ks[i]), enc(ks[j]));
      if ks[j].blk > ks[i].blk {
        EligibleKeysNewestFirst(group, ks[j], ks[i]);
        NotBoth(enc(ks[i]), enc(ks[j]));
      }
    }
  }

  // ----- Where the scan stops

  // The first n keys hold all of the recent blocks: nothing is left, or max blocks are newer than the rest
  ghost predicate Stops(ks: seq<MissingKey>, live: set<MissingKey>, n: nat, max: nat)
    requires n <= |ks|
  {
    var blocks := BlocksOf(Seen(ks, live, n));
    && |blocks| <= max
    && (n == |ks| || (|blocks| == max && forall b, j :: b in blocks && n <= j < |ks| ==> ks[j].blk < b))
  }

  lemma StopsAtRecent(ks: seq<MissingKey>, live: set<MissingKey>, n: nat, max: nat)
    requires n <= |ks| && Stops(ks, live, n, max)
    requires forall k :: k in live ==> k in ks
    ensures Recent(live, max) == Seen(ks, live, n)
  {
    forall k | k in live ensures k in Recent(live, max) <==> k in Seen(ks, live, n) {
      if k in Seen(ks, live, n) {
        SeenAreRecent(ks, live, n, max, k);
      } else {
        var i :| 0 <= i < |ks| && ks[i] == k;
        RestAreNot(ks, live, n, max, i);
      }
    }
  }

  lemma SeenAreRecent(ks: seq<MissingKey>, live: set<MissingKey>, n: nat, max: nat, k: MissingKey)
    requires n <= |ks| && Stops(ks, live, n, max)
    requires forall k :: k in live ==> k in ks
    requires k in Seen(ks, live, n)
    ensures |Newer(BlocksOf(live), k.blk)| < max
  {
    var blocks := BlocksOf(Seen(ks, live, n));
    assert k.blk in blocks;
    forall b | b in Newer(BlocksOf(live), k.blk) ensures b in blocks - {k.blk} {
      var k' :| k' in live && k'.blk == b;
      var j :| 0 <= j < |ks| && ks[j] == k';
      assert j < n;
      assert k' in Seen(ks, live, n);
    }
    SmallerSet(Newer(BlocksOf(live), k.blk), blocks - {k.blk});
  }

  lemma RestAreNot(ks: seq<MissingKey>, live: set<MissingKey>, n: nat, max: nat, i: nat)
    requires n <= i < |ks| && Stops(ks, live, n, max)
    ensures |Newer(BlocksOf(live), ks[i].blk)| >= max
  {
    var blocks := BlocksOf(Seen(ks, live, n));
    forall b | b in blocks ensures b in Newer(BlocksOf(live), ks[i].blk) {
      var k' :| k' in Seen(ks, live, n) && k'.blk == b;
      assert k' in live;
    }
    SmallerSet(blocks, Newer(BlocksOf(live), ks[i].blk));
  }

  lemma {:induction false} SmallerSet<T>(a: set<T>, b: set<T>)
    requires a <= b
    ensures |a| <= |b|
  {
    assert b == a + (b - a);
  }

  predicate HasBlock(info: MissingBits, b: uint64) {
    exists x :: x in info && x.0.blk == b
  }

  lemma InfoBlocks(m: MissingMap, ks: set<MissingKey>, b: uint64)
    requires NoEmptyBitmap(m) && ks <= m.Keys
    ensures HasBlock(BitsOf(m, ks), b) <==> b in BlocksOf(ks)
  {
    if b in BlocksOf(ks) {
      var k :| k in ks && k.blk == b;
      var tx :| tx in m[k];
      assert (k, tx) in BitsOf(m, ks);
    }
  }

  // The scan comes to the key: fewer than max blocks with an unexpired entry are newer
  predicate Reached(live: set<MissingKey>, k: MissingKey, max: nat) {
    |Newer(BlocksOf(live), k.blk)| < max
  }

  predicate UnknownReached(btl: BtlPolicy, m: MissingMap, last: uint64, max: nat) {
    exists k :: k in m && 0 < k.blk <= last && ExpiringBlk(btl, k).None? && Reached(Live(btl, m, last), k, max)
  }

  /** The recent info, or an error when the scan comes to a collection without a policy. */
  ghost function Report(btl: BtlPolicy, m: MissingMap, last: uint64, max: int): Result<MissingBits> {
    if max < 1 then Ok({})
    else if UnknownReached(btl, m, last, max) then Err(PolicyFailed)
    else Ok(RecentInfo(btl, m, last, max))
  }

  method GetMissingPvtDataInfoForMostRecentBlocks(group: Byte, maxBlock: int, last: uint64, btl: BtlPolicy,
                                                  m: MissingMap)
    returns (r: Result<MissingBits>)
    requires group == ELG_PRIO || group == ELG_DEPRIO
    requires NoEmptyBitmap(m)
    ensures r == Report(btl, m, last, maxBlock)
  {
    if maxBlock < 1 {
      return Ok({});
    }
    EligibleKeysSeparate(group);
    var ks := Sort((k: MissingKey) => EncodeEligible(group, k), Scanned(group, m, last));
    ScanOrder(group, ks);
    ScannedExactly(group, m, last);
    r := ScanKeys(ks, maxBlock, last, btl, m, Live(btl, m, last));
  }

  // What the scan knows once it has passed the live keys in seen
  ghost predicate ScanInv(seen: set<MissingKey>, max: nat, processed: nat, lastProcessed: uint64, reached: bool) {
    var blocks := BlocksOf(seen);
    && processed == |blocks| <= max
    && (reached <==> processed == max)
    && (reached ==> lastProcessed in blocks && forall b :: b in blocks ==> lastProcessed <= b)
  }

  method ScanKeys(ks: seq<MissingKey>, maxBlock: nat, last: uint64, btl: BtlPolicy, m: MissingMap,
                  ghost live: set<MissingKey>)
    returns (r: Result<MissingBits>)
    requires NoEmptyBitmap(m) && NewestFirst(ks) && maxBlock >= 1
    requires forall k :: k in ks ==> k in m
    requires forall k :: k in live <==> k in ks && LiveKey(btl, k, last)
    ensures r.Ok? ==> r.value == BitsOf(m, Recent(live, maxBlock))
    ensures r.Err? ==> r.error == PolicyFailed
    ensures r.Err? ==> exists k :: k in ks && ExpiringBlk(btl, k).None? && Reached(live, k, maxBlock)
    ensures r.Ok? ==> forall k :: k in ks && ExpiringBlk(btl, k).None? ==> !Reached(live, k, maxBlock)
  {
    var info: MissingBits := {};
    var processed, lastProcessed: uint64, reached := 0, 0, false;
    var i := 0;
    while i < |ks|
      invariant 0 <= i <= |ks|
      invariant forall j :: 0 <= j < i ==> ExpiringBlk(btl, ks[j]).Some?
      invariant info == BitsOf(m, Seen(ks, live, i))
      invariant ScanInv(Seen(ks, live, i), maxBlock, processed, lastProcessed, reached)
      decreases |ks| - i
    {
      var k := ks[i];
      assert k in ks;
      if reached && k.blk != lastProcessed {
        StopHere(ks, live, i, maxBlock, lastProcessed);
        break;
      }
      if ExpiringBlk(btl, k).None? {
        ReachedHere(ks, live, i, maxBlock, processed, lastProcessed, reached);
        return Err(PolicyFailed);
      }
      if LiveKey(btl, k, last) {
        ScanStep(ks, live, i, m, maxBlock, processed, lastProcessed, reached);
        if !HasBlock(info, k.blk) {
          processed := processed + 1;
          if processed == maxBlock {
            reached, lastProcessed := true, k.blk;
          }
        }
        info := AddBits(info, m, k);
      } else {
        SeenNext(ks, live, i);
      }
      i := i + 1;
    }
    StopsAtRecent(ks, live, i, maxBlock);
    forall k | k in ks && ExpiringBlk(btl, k).None? ensures !Reached(live, k, maxBlock) {
      var p :| 0 <= p < |ks| && ks[p] == k;
      RestAreNot(ks, live, i, maxBlock, p);
    }
    return Ok(info);
  }

  lemma ReachedHere(ks: seq<MissingKey>, live: set<MissingKey>, i: nat,
                    max: nat, processed: nat, lastProcessed: uint64, reached: bool)
    requires i < |ks| && NewestFirst(ks) && forall k :: k in live ==> k in ks
    requires ScanInv(Seen(ks, live, i), max, processed, lastProcessed, reached) &&
        (reached ==> ks[i].blk == lastProcessed)
    ensures Reached(live, ks[i], max)
  {
    var blocks, newer := BlocksOf(Seen(ks, live, i)), Newer(BlocksOf(live), ks[i].blk);
    forall b | b in newer ensures b in blocks {
      var k' :| k' in live && k'.blk == b;
      var j :| 0 <= j < |ks| && ks[j] == k';
      assert k' in Seen(ks, live, i);
    }
    SmallerSet(newer, if reached then blocks - {lastProcessed} else blocks);
  }

  function AddBits(info: MissingBits, m: MissingMap, k: MissingKey): MissingBits
    requires k in m
  {
    info + set tx | tx in m[k] :: (k, tx)
  }

  lemma ScanStep(ks: seq<MissingKey>, live: set<MissingKey>, i: nat, m: MissingMap,
                 max: nat, processed: nat, lastProcessed: uint64, reached: bool)
    requires i < |ks| && NewestFirst(ks) && NoEmptyBitmap(m)
    requires forall k :: k in ks ==> k in m
    requires ks[i] in live && ScanInv(Seen(ks, live, i), max, processed, lastProcessed, reached)
    requires reached ==> ks[i].blk == lastProcessed
    ensures BitsOf(m, Seen(ks, live, i + 1)) == AddBits(BitsOf(m, Seen(ks, live, i)), m, ks[i])
    ensures if HasBlock(BitsOf(m, Seen(ks, live, i)), ks[i].blk) then
              ScanInv(Seen(ks, live, i + 1), max, processed, lastProcessed, reached)
            else if processed + 1 == max then
              ScanInv(Seen(ks, live, i + 1), max, processed + 1, ks[i].blk, true)
            else
              ScanInv(Seen(ks, live, i + 1), max, processed + 1, lastProcessed, reached)
  {
    var seen, k := Seen(ks, live, i), ks[i];
    SeenNext(ks, live, i);
    InfoBlocks(m, seen, k.blk);
    NewBlockIsOldest(ks, live, i);
    AddKey(m, seen, k);
  }

  lemma AddKey(m: MissingMap, ks: set<MissingKey>, k: MissingKey)
    requires k in m
    ensures BitsOf(m, ks + {k}) == AddBits(BitsOf(m, ks), m, k)
    ensures BlocksOf(ks + {k}) == BlocksOf(ks) + {k.blk}
  {
  }

  lemma NewBlockIsOldest(ks: seq<MissingKey>, live: set<MissingKey>, i: nat)
    requires i < |ks| && NewestFirst(ks)
    ensures forall b :: b in BlocksOf(Seen(ks, live, i)) ==> ks[i].blk <= b
  {
  }

  lemma StopHere(ks: seq<MissingKey>, live: set<MissingKey>, i: nat, max: nat, oldest: uint64)
    requires i < |ks| && NewestFirst(ks)
    requires var blocks := BlocksOf(Seen(ks, live, i));
             |blocks| == max && oldest in blocks && forall b :: b in blocks ==> oldest <= b
    requires ks[i].blk != oldest
    ensures Stops(ks, live, i, max)
  {
    NewBlockIsOldest(ks, live, i);
  }

  // Deleting expired entries leaves the recent info as it is
  lemma PurgeInvisibleToInfo(btl: BtlPolicy, m: MissingMap, dead: set<MissingKey>, last: uint64, max: nat)
    requires forall k :: k in dead ==> ExpiringBlk(btl, k).Some? && ExpiringBlk(btl, k).value <= last
    ensures RecentInfo(btl, m - dead, last, max) == RecentInfo(btl, m, last, max)
    ensures UnknownReached(btl, m - dead, last, max) == UnknownReached(btl, m, last, max)
  {
    var live := Live(btl, m, last);
    assert Live(btl, m - dead, last) == live;
    assert forall k :: k in Recent(live, max) ==> k in m - dead && (m - dead)[k] == m[k];
    if UnknownReached(btl, m, last, max) {
      var k :| k in m && 0 < k.blk <= last && ExpiringBlk(btl, k).None? && Reached(live, k, max);
      assert k in m - dead;
    }
  }

  /** A purge up to a committed block changes no group's report, which succeeds when every collection is known. */
  lemma PurgeInvisibleToReport(btl: BtlPolicy, m: MissingMap, dead: set<MissingKey>, last: uint64, max: int)
    requires forall k :: k in dead ==> ExpiringBlk(btl, k).Some? && ExpiringBlk(btl, k).value <= last
    ensures Report(btl, m - dead, last, max) == Report(btl, m, last, max)
    ensures (forall k :: k in m ==> ExpiringBlk(btl, k).Some?) ==> Report(btl, m, last, max).Ok?
  {
    if max >= 1 {
      PurgeInvisibleToInfo(btl, m, dead, last, max);
    }
  }
}
