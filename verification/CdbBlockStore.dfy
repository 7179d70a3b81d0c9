/** The block store as the peer uses it: documents, checkpoint and caches together. */
module CdbBlockStore {
  import opened PvtTypes
  import opened BlockStore
  import opened BlockCache

  // ----- The checkpoint document

  // Seven bits a byte, the least significant first; all but the last byte carry the high bit
  function Varint(n: nat): (r: Bytes)
    ensures |r| > 0
  {
    if n < 128 then [n] else [n % 128 + 128] + Varint(n / 128)
  }

  // The number and what follows it; a uint64 takes at most ten bytes
  function ReadVarint(b: Bytes, limit: nat): Option<(nat, Bytes)>
    decreases limit
  {
    if b == [] || limit == 0 then None
    else if b[0] < 128 then Some((b[0], b[1..]))
    else
      var rest := ReadVarint(b[1..], limit - 1);
      if rest.None? then None else Some((b[0] - 128 + 128 * rest.value.0, rest.value.1))
  }

  const VARINT_LIMIT: nat := 10

  lemma {:induction false} VarintLength(n: nat, k: nat)
    requires n < Power128(k) && k > 0
    ensures |Varint(n)| <= k
  {
    if n >= 128 {
      VarintLength(n / 128, k - 1);
    }
  }

  function Power128(k: nat): nat {
    if k == 0 then 1 else 128 * Power128(k - 1)
  }

  lemma {:induction false} ReadVarintOf(n: nat, rest: Bytes, limit: nat)
    requires |Varint(n)| <= limit
    ensures ReadVarint(Varint(n) + rest, limit) == Some((n, rest))
  {
    var b := Varint(n) + rest;
    if n < 128 {
      assert b[1..] == rest;
    } else {
      assert b[1..] == Varint(n / 128) + rest;
      ReadVarintOf(n / 128, rest, limit - 1);
    }
  }

  lemma Uint64Fits(n: uint64)
    ensures |Varint(n)| <= VARINT_LIMIT
  {
    assert Power128(5) == 34359738368;
    assert Power128(10) == Power128(5) * Power128(5);
    VarintLength(n, VARINT_LIMIT);
  }

  function Marshal(cp: Checkpoint): Bytes {
    Varint(cp.last) + (Varint(|cp.hash|) + (cp.hash + Varint(if cp.empty then 1 else 0)))
  }

  function Unmarshal(b: Bytes): Option<Checkpoint> {
    var last := ReadVarint(b, VARINT_LIMIT);
    if last.None? || last.value.0 > MAX_UINT64 then None else
      var size := ReadVarint(last.value.1, VARINT_LIMIT);
      if size.None? || size.value.0 > |size.value.1| then None else
        var marker := ReadVarint(size.value.1[size.value.0..], VARINT_LIMIT);
        if marker.None? then None
        else Some(Checkpoint(marker.value.0 == 1, last.value.0, size.value.1[..size.value.0]))
  }

  /** A saved checkpoint is read back as it was. */
  lemma CheckpointRoundTrip(cp: Checkpoint)
    requires |cp.hash| <= MAX_UINT64
    ensures Unmarshal(Marshal(cp)) == Some(cp)
  {
    var marker := Varint(if cp.empty then 1 else 0);
    Uint64Fits(cp.last);
    Uint64Fits(|cp.hash|);
    ReadVarintOf(cp.last, Varint(|cp.hash|) + (cp.hash + marker), VARINT_LIMIT);
    ReadVarintOf(|cp.hash|, cp.hash + marker, VARINT_LIMIT);
    assert (cp.hash + marker)[..|cp.hash|] == cp.hash && (cp.hash + marker)[|cp.hash|..] == marker;
    ReadVarintOf(if cp.empty then 1 else 0, [], VARINT_LIMIT);
    assert marker + [] == marker;
  }

  // ----- The store

  // An AddBlock from beginning to end
  function Added(hash: HashFn, s: State, b: Block): State
    requires s.phase.Idle? && ValidNext(s.cp, b)
  {
    Step(hash, Step(hash, Step(hash, Step(hash, s, Store(b)), Save), SetInfo), Publish)
  }

  // One whose checkpoint could not be saved
  function Abandoned(hash: HashFn, s: State, b: Block): State
    requires s.phase.Idle? && ValidNext(s.cp, b)
  {
    Step(hash, Step(hash, s, Store(b)), Fail)
  }

  class Store {
    const hash: HashFn
    var blocks: map<uint64, Block>
    var saved: Option<Checkpoint>
    var cpInfo: Checkpoint
    const cache: Cache

    ghost function View(): State
      reads this, cache
    {
      State(blocks, saved, cpInfo, cache.info, Idle)
    }

    ghost predicate Valid()
      reads this, cache
    {
      cache.hash == hash && cache.Valid(blocks)
    }

    // Opens the store on what an earlier process left
    constructor (hash: HashFn, numSize: nat, hashSize: nat, ghost left: State, blocks: map<uint64, Block>,
                 saved: Option<Checkpoint>)
      requires left.blocks == blocks && left.saved == saved && Reopens(left) && Keyed(blocks)
      ensures Valid() && this.hash == hash && fresh(cache) && View() == Step(hash, left, Restart)
    {
      var cp := if saved.None? then NO_BLOCKS else saved.value;
      this.hash, this.blocks, this.saved, cpInfo := hash, blocks, Some(cp), cp;
      cache := new Cache(hash, numSize, hashSize, if cp.empty then NO_INFO else InfoOf(hash, blocks[cp.last]));
    }

    // saves says whether the checkpoint document can be written
    method AddBlock(b: Block, saves: bool) returns (ok: bool)
      requires Valid() && (b.header.number in blocks ==> blocks[b.header.number] == b)
      modifies this, cache
      ensures Valid() && ok == (ValidNext(old(View()).cp, b) && saves)
      ensures View() == if !ValidNext(old(View()).cp, b) then old(View())
                        else if saves then Added(hash, old(View()), b)
                        else Abandoned(hash, old(View()), b)
      ensures ok ==> b.header.number in blocks && blocks[b.header.number] == b && !cpInfo.empty
      ensures ok ==> cpInfo.last == b.header.number && saved == Some(cpInfo)
      ensures ok ==> cpInfo.hash == cache.info.current == hash(b.header) && cache.info.previous == b.header.prev
    {
      if !cpInfo.empty && (b.header.number != Increment(cpInfo.last) || b.header.prev != cpInfo.hash) {
        return false;
      }
      cache.Grows(blocks, b);
      blocks := blocks[b.header.number := b];
      ok := CheckpointBlock(b, saves);
    }

    method CheckpointBlock(b: Block, saves: bool) returns (ok: bool)
      requires Valid() && InStore(blocks, b)
      modifies this, cache
      ensures Valid() && blocks == old(blocks) && ok == saves
      ensures var cp := CheckpointOf(hash, b);
              View() == if saves then State(blocks, Some(cp), cp, InfoOf(hash, b), Idle) else old(View())
    {
      var cp := CheckpointOf(hash, b);
      cache.Put(b, blocks);
      if !saves {
        return false;
      }
      saved := Some(cp);
      cache.info := Info(Increment(cp.last), cp.hash, b.header.prev);
      cpInfo := cp;
      return true;
    }

    method RetrieveBlockByNumber(n: uint64) returns (r: Option<Block>)
      requires Valid()
      modifies cache
      ensures Valid() && View() == old(View()) && r == Retrieve(View(), n)
    {
      var number := n;
      if n == MAX_UINT64 {
        number := Decrement(cache.info.height);
      }
      r := cache.GetBlockByNumber(number, blocks);
    }

    method RetrieveBlockByHash(h: Bytes) returns (r: Option<Block>)
      requires Valid()
      modifies cache
      ensures Valid() && View() == old(View()) && AnswersHash(hash, blocks, h, r)
    {
      r := cache.GetBlockByHash(h, blocks);
    }
  }
}
