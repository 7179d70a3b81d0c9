/** The values the private data stores exchange. */
module PvtTypes {
  datatype Option<+T> = None | Some(value: T)

  datatype Result<+T> = Ok(value: T) | Err(error: Error)

  datatype Error = IllegalCall | OutOfRange | PolicyFailed | LastBlockUnreadable

  const MAX_UINT64: nat := 0xffff_ffff_ffff_ffff

  type uint64 = n: nat | n <= MAX_UINT64

  // Unsigned arithmetic wraps around
  function Increment(n: uint64): uint64 {
    if n == MAX_UINT64 then 0 else n + 1
  }

  function Decrement(n: uint64): uint64 {
    if n == 0 then MAX_UINT64 else n - 1
  }

  type Byte = n: nat | n < 256

  type Bytes = seq<Byte>

  // Namespace and collection names never contain the nil byte that separates them in keys
  type Name = s: Bytes | 0 !in s

  datatype NsColl = NsColl(ns: Name, coll: Name)

  datatype DataKey = DataKey(ns: Name, coll: Name, blk: uint64, tx: uint64)

  datatype MissingKey = MissingKey(ns: Name, coll: Name, blk: uint64)

  datatype ExpiryKey = ExpiryKey(expiring: uint64, committing: uint64)

  // The block at which the collection's data of a block expires; None when the policy lookup fails
  type BtlPolicy = (Name, Name, uint64) -> Option<uint64>

  predicate NeverExpires(expiring: uint64) {
    expiring == MAX_UINT64
  }
}
