/** The block caches by number and by hash, with the newest config block pinned beside them. */
module BlockCache {
  import opened PvtTypes
  import opened BlockStore

  type Blocks = map<uint64, Block>

  function ByNumber(store: Blocks, n: uint64): Option<Block> {
    if n in store then Some(store[n]) else None
  }

  predicate InStore(store: Blocks, b: Block) {
    b.header.number in store && store[b.header.number] == b
  }

  // An answer to a lookup by hash
  ghost predicate AnswersHash(hash: HashFn, store: Blocks, h: Bytes, r: Option<Block>) {
    match r
    case Some(b) => InStore(store, b) && hash(b.header) == h
    case None => forall n :: n in store ==> hash(store[n].header) != h
  }

  ghost predicate CollisionFree(hash: HashFn) {
    forall a, b :: hash(a) == hash(b) ==> a == b
  }

  /** With a collision-free hash there is one answer, so cache and store cannot differ. */
  lemma HashAnswerUnique(hash: HashFn, store: Blocks, h: Bytes, r: Option<Block>, r': Option<Block>)
    requires CollisionFree(hash) && AnswersHash(hash, store, h, r) && AnswersHash(hash, store, h, r')
    ensures r == r'
  {
    if r.Some? && r'.Some? {
      assert r.value.header == r'.value.header;
    }
  }

  // The highest-numbered config block among those put or loaded
  predicate Pins(offered: set<Block>, config: Option<Block>) {
    match config
    case None => forall b :: b in offered ==> !b.config
    case Some(c) => c in offered && c.config && forall b :: b in offered && b.config ==>
        b.header.number <= c.header.number
  }

  // The store answers a lookup by hash with a matching block, if it has one
  method RetrieveByHash(hash: HashFn, store: Blocks, h: Bytes) returns (r: Option<Block>)
    requires Keyed(store)
    ensures AnswersHash(hash, store, h, r)
  {
    var todo := store.Keys;
    while todo != {}
      invariant todo <= store.Keys
      invariant forall n :: n in store && n !in todo ==> hash(store[n].header) != h
      decreases |todo|
    {
      var n :| n in todo;
      if hash(store[n].header) == h {
        return Some(store[n]);
      }
      todo := todo - {n};
    }
    return None;
  }

  class Cache {
    const hash: HashFn
    // A size of zero turns a cache off
    const numSize: nat
    const hashSize: nat
    var byNum: map<uint64, Block>
    var byHash: map<Bytes, Block>
    var configBlock: Option<Block>
    var info: Info
    // The blocks put or loaded so far
    ghost var offered: set<Block>

    ghost predicate Valid(store: Blocks)
      reads this
    {
      && Keyed(store)
      && (forall n :: n in byNum ==> n in store && byNum[n] == store[n])
      && (forall h :: h in byHash ==> InStore(store, byHash[h]) && hash(byHash[h].header) == h)
      && (forall b :: b in offered ==> InStore(store, b))
      && Pins(offered, configBlock)
    }

    constructor (hash: HashFn, numSize: nat, hashSize: nat, info: Info)
      ensures this.hash == hash && this.info == info && offered == {} && configBlock == None
      ensures forall store :: Keyed(store) ==> Valid(store)
    {
      this.hash, this.numSize, this.hashSize, this.info := hash, numSize, hashSize, info;
      byNum, byHash, configBlock, offered := map[], map[], None, {};
    }

    // Answered without the store
    predicate Has(n: uint64)
      reads this
    {
      n in byNum || (configBlock.Some? && configBlock.value.header.number == n)
    }

    method SetConfigBlock(b: Block, ghost store: Blocks)
      requires Valid(store) && InStore(store, b)
      modifies this`configBlock, this`offered
      ensures Valid(store) && offered == old(offered) + {b}
    {
      offered := offered + {b};
      if !b.config {
        return;
      }
      if configBlock.Some? && configBlock.value.header.number >= b.header.number {
        return;
      }
      configBlock := Some(b);
    }

    method Put(b: Block, ghost store: Blocks)
      requires Valid(store) && InStore(store, b)
      modifies this`byNum, this`byHash, this`configBlock, this`offered
      ensures Valid(store) && offered == old(offered) + {b}
      ensures byNum == if numSize > 0 then old(byNum)[b.header.number := b] else old(byNum)
      ensures byHash == if hashSize > 0 then old(byHash)[hash(b.header) := b] else old(byHash)
    {
      if numSize > 0 {
        byNum := byNum[b.header.number := b];
      }
      if hashSize > 0 {
        byHash := byHash[hash(b.header) := b];
      }
      SetConfigBlock(b, store);
    }

    // Either cache may drop any entries at any time
    method Evict(ns: set<uint64>, hs: set<Bytes>, ghost store: Blocks)
      requires Valid(store)
      modifies this`byNum, this`byHash
      ensures Valid(store) && byNum == old(byNum) - ns && byHash == old(byHash) - hs
    {
      byNum, byHash := byNum - ns, byHash - hs;
    }

    method GetBlockByNumber(n: uint64, store: Blocks) returns (r: Option<Block>)
      requires Valid(store)
      modifies this`byNum, this`configBlock, this`offered
      ensures Valid(store) && r == ByNumber(store, n)
      ensures offered == old(offered) + if numSize == 0 || old(Has(n)) || n !in store then {} else {store[n]}
      ensures byNum == if numSize == 0 || old(Has(n)) || n !in store then old(byNum) else old(byNum)[n := store[n]]
    {
      if configBlock.Some? && configBlock.value.header.number == n {
        return configBlock;
      }
      if numSize == 0 {
        return ByNumber(store, n);
      }
      if n in byNum {
        return Some(byNum[n]);
      }
      r := ByNumber(store, n);
      if r.Some? {
        SetConfigBlock(r.value, store);
        byNum := byNum[n := r.value];
      }
    }

    method GetBlockByHash(h: Bytes, store: Blocks) returns (r: Option<Block>)
      requires Valid(store)
      modifies this`byHash, this`configBlock, this`offered
      ensures Valid(store) && AnswersHash(hash, store, h, r)
      ensures offered == old(offered) + if hashSize == 0 || h in old(byHash) || r.None? then {} else {r.value}
      ensures byHash == if hashSize == 0 || r.None? then old(byHash) else old(byHash)[h := r.value]
    {
      if hashSize > 0 && h in byHash {
        return Some(byHash[h]);
      }
      r := RetrieveByHash(hash, store, h);
      if hashSize > 0 && r.Some? {
        SetConfigBlock(r.value, store);
        byHash := byHash[h := r.value];
      }
    }

    // A store that only grows keeps the cache right
    lemma Grows(store: Blocks, b: Block)
      requires Valid(store) && (b.header.number in store ==> store[b.header.number] == b)
      ensures Valid(store[b.header.number := b])
    {
    }
  }
}
