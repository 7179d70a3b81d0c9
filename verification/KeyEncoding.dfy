/**
  The byte encodings of the private data stores: the reverse-order and order-preserving variable
  length integers, the keys built from them, and the half-open ranges the scans use.
 */
module KeyEncoding {
  import opened Digits
  import opened PvtTypes

  lemma Pow256()
    ensures Pow(256, 8) == MAX_UINT64 + 1
  {
    assert Pow(256, 2) == 0x1_0000;
    assert Pow(256, 4) == 0x1_0000_0000;
    assert Pow(256, 6) == 0x1_0000_0000_0000;
  }

  // Eight bytes, most significant first
  function BigEndian(n: uint64): (s: Bytes)
    ensures |s| == 8
  {
    Pow256();
    DigitBound(256, n, 8);
    ToDigits(256, n, 8)
  }

  function FromBigEndian(s: Bytes): (n: uint64)
    requires |s| == 8
    ensures BigEndian(n) == s
  {
    Pow256();
    DigitsOfValue(256, s);
    Value(256, s)
  }

  lemma BigEndianRoundTrip(n: uint64)
    ensures FromBigEndian(BigEndian(n)) == n
  {
    Pow256();
    ValueOfDigits(256, n, 8);
  }

  lemma BigEndianOrder(m: uint64, n: uint64)
    ensures Less(BigEndian(m), BigEndian(n)) <==> m < n
  {
    Pow256();
    DigitsOrderIff(256, m, n, 8);
  }

  // How many elements at the front equal c
  function LeadCount(c: nat, s: seq<nat>): (k: nat)
    ensures k <= |s|
    ensures forall i :: 0 <= i < k ==> s[i] == c
    ensures k < |s| ==> s[k] != c
  {
    if s == [] || s[0] != c then 0 else 1 + LeadCount(c, s[1..])
  }

  lemma {:induction false} LeadCountUnique(c: nat, s: seq<nat>, k: nat)
    requires k <= |s| && (forall i :: 0 <= i < k ==> s[i] == c) && (k < |s| ==> s[k] != c)
    ensures LeadCount(c, s) == k
  {
    if k > 0 {
      LeadCountUnique(c, s[1..], k - 1);
    }
  }

  // ----- The reverse-order integer

  /** The complement's leading 0xff bytes are replaced by their number. */
  function ReverseOrder(n: uint64): (e: Bytes)
    ensures 1 <= |e| <= 9 && e[0] == 9 - |e|
  {
    var b := BigEndian(MAX_UINT64 - n);
    var f := LeadCount(255, b);
    [f] + b[f..]
  }

  predicate Decodable(b: Bytes) {
    |b| > 0 && b[0] <= 8 && |b| >= 9 - b[0]
  }

  function Repeat(c: Byte, k: nat): (s: Bytes)
    ensures |s| == k && forall i :: 0 <= i < k ==> s[i] == c
  {
    seq(k, _ => c)
  }

  function ReverseOrderValue(b: Bytes): uint64
    requires Decodable(b)
  {
    MAX_UINT64 - FromBigEndian(Repeat(255, b[0]) + b[1..9 - b[0]])
  }

  method EncodeReverseOrder(number: uint64) returns (encoded: Bytes)
    ensures encoded == ReverseOrder(number)
  {
    var bytes := BigEndian(MAX_UINT64 - number);
    var numFF := 0;
    while numFF < 8 && bytes[numFF] == 0xff
      invariant 0 <= numFF <= 8
      invariant forall i :: 0 <= i < numFF ==> bytes[i] == 0xff
    {
      numFF := numFF + 1;
    }
    LeadCountUnique(255, bytes, numFF);
    var size := 8 - numFF;
    var buffer := new Byte[size + 1](_ => 0);
    buffer[0] := numFF;
    for i := 0 to size
      invariant buffer[0] == numFF
      invariant forall j :: 1 <= j <= i ==> buffer[j] == bytes[numFF + j - 1]
    {
      buffer[i + 1] := bytes[numFF + i];
    }
    encoded := buffer[..];
    assert encoded == [numFF] + bytes[numFF..];
  }

  // A first byte above 8 or a short input makes the source panic
  method DecodeReverseOrder(bytes: Bytes) returns (number: uint64, consumed: nat)
    requires Decodable(bytes)
    ensures number == ReverseOrderValue(bytes) && consumed == 9 - bytes[0]
  {
    var numFF := bytes[0];
    var decoded := new Byte[8](_ => 0);
    var size := 8 - numFF;
    for i := 0 to size
      invariant forall j :: numFF <= j < numFF + i ==> decoded[j] == bytes[1 + j - numFF]
    {
      decoded[numFF + i] := bytes[1 + i];
    }
    for i := 0 to numFF
      invariant forall j :: 0 <= j < i ==> decoded[j] == 255
      invariant forall j :: numFF <= j < 8 ==> decoded[j] == bytes[1 + j - numFF]
    {
      decoded[i] := 255;
    }
    assert decoded[..] == Repeat(255, numFF) + bytes[1..9 - numFF];
    return MAX_UINT64 - FromBigEndian(decoded[..]), size + 1;
  }

  /** Decoding an encoded number ignores whatever follows it. */
  lemma ReverseOrderRoundTrip(n: uint64, rest: Bytes)
    ensures Decodable(ReverseOrder(n) + rest)
    ensures ReverseOrderValue(ReverseOrder(n) + rest) == n
    ensures 9 - (ReverseOrder(n) + rest)[0] == |ReverseOrder(n)|
  {
    var e := ReverseOrder(n) + rest;
    var b := BigEndian(MAX_UINT64 - n);
    var f := LeadCount(255, b);
    assert Repeat(255, f) + e[1..9 - f] == b;
    BigEndianRoundTrip(MAX_UINT64 - n);
  }

  lemma ReverseOrderSelfDelimiting(m: uint64, n: uint64, x: Bytes, y: Bytes)
    requires ReverseOrder(m) + x == ReverseOrder(n) + y
    ensures m == n && x == y
  {
    ReverseOrderRoundTrip(m, x);
    ReverseOrderRoundTrip(n, y);
    assert (ReverseOrder(m) + x)[|ReverseOrder(m)|..] == x;
    assert (ReverseOrder(n) + y)[|ReverseOrder(n)|..] == y;
  }

  // Dropping a common front keeps the order; the longer run of the larger byte sorts last
  lemma TrimmedOrder(c: nat, a: seq<nat>, b: seq<nat>)
    requires |a| == |b| && Less(a, b)
    ensures LeadCount(c, a) == LeadCount(c, b) ==> Less(a[LeadCount(c, a)..], b[LeadCount(c, b)..])
  {
    var k := LeadCount(c, a);
    if k == LeadCount(c, b) {
      assert a[..k] == b[..k];
      assert a == a[..k] + a[k..] && b == a[..k] + b[k..];
      LessCommonPrefix(a[..k], a[k..], b[k..]);
    }
  }

  lemma {:induction false} LeadCountOrder(c: nat, a: seq<nat>, b: seq<nat>)
    requires |a| == |b| && Less(a, b)
    ensures (forall i :: 0 <= i < |a| ==> a[i] <= c && b[i] <= c) ==> LeadCount(c, a) <= LeadCount(c, b)
    ensures c == 0 ==> LeadCount(c, a) >= LeadCount(c, b)
  {
    if a[0] == b[0] {
      LeadCountOrder(c, a[1..], b[1..]);
    }
  }

  /** Byte order of the encodings is the reverse of numeric order, over all of uint64. */
  lemma ReverseOrderReverses(m: uint64, n: uint64)
    requires m < n
    ensures Less(ReverseOrder(n), ReverseOrder(m))
    ensures !(ReverseOrder(n) <= ReverseOrder(m))
  {
    var a, b := BigEndian(MAX_UINT64 - n), BigEndian(MAX_UINT64 - m);
    BigEndianOrder(MAX_UINT64 - n, MAX_UINT64 - m);
    LeadCountOrder(255, a, b);
    TrimmedOrder(255, a, b);
    var f, g := LeadCount(255, a), LeadCount(255, b);
    ConsOrder(f, g, a[f..], b[g..]);
    if ReverseOrder(n) <= ReverseOrder(m) {
      var rest := ReverseOrder(m)[|ReverseOrder(n)|..];
      ReverseOrderSelfDelimiting(n, m, rest, []);
    }
  }

  // ----- The order-preserving integer (a Fabric utility): the leading zero bytes are dropped and
  // the number of remaining bytes goes first

  function OrderPreserving(n: uint64): (e: Bytes)
    ensures 1 <= |e| <= 9 && e[0] == |e| - 1
  {
    var b := BigEndian(n);
    var z := LeadCount(0, b);
    [8 - z] + b[z..]
  }

  // The number and how many bytes it took, or None for a malformed prefix
  function DecodeOrderPreserving(b: Bytes): (r: Option<(uint64, nat)>)
    ensures r.Some? ==> r.value.1 <= |b|
  {
    if |b| == 0 || b[0] > 8 || b[0] > |b| - 1 then None
    else Some((FromBigEndian(Repeat(0, 8 - b[0]) + b[1..1 + b[0]]), 1 + b[0]))
  }

  lemma OrderPreservingRoundTrip(n: uint64, rest: Bytes)
    ensures DecodeOrderPreserving(OrderPreserving(n) + rest) == Some((n, |OrderPreserving(n)|))
  {
    var e := OrderPreserving(n) + rest;
    var b := BigEndian(n);
    var z := LeadCount(0, b);
    assert Repeat(0, z) + e[1..9 - z] == b;
    BigEndianRoundTrip(n);
  }

  lemma OrderPreservingSelfDelimiting(m: uint64, n: uint64, x: Bytes, y: Bytes)
    requires OrderPreserving(m) + x == OrderPreserving(n) + y
    ensures m == n && x == y
  {
    OrderPreservingRoundTrip(m, x);
    OrderPreservingRoundTrip(n, y);
    assert (OrderPreserving(m) + x)[|OrderPreserving(m)|..] == x;
    assert (OrderPreserving(n) + y)[|OrderPreserving(n)|..] == y;
  }

  lemma OrderPreservingPreserves(m: uint64, n: uint64)
    requires m < n
    ensures Less(OrderPreserving(m), OrderPreserving(n))
    ensures !(OrderPreserving(m) <= OrderPreserving(n))
  {
    var a, b := BigEndian(m), BigEndian(n);
    BigEndianOrder(m, n);
    LeadCountOrder(0, a, b);
    TrimmedOrder(0, a, b);
    var f, g := LeadCount(0, a), LeadCount(0, b);
    ConsOrder(8 - f, 8 - g, a[f..], b[g..]);
    if OrderPreserving(m) <= OrderPreserving(n) {
      var rest := OrderPreserving(n)[|OrderPreserving(m)|..];
      OrderPreservingSelfDelimiting(m, n, rest, []);
    }
  }

  // ----- Keys of the missing-data index

  const PENDING_COMMIT: Byte := 0
  const PVT_DATA: Byte := 2
  const ELG_PRIO: Byte := 4
  const INELG: Byte := 5
  const COLL_ELG: Byte := 6
  const LAST_UPDATED: Byte := 7
  const ELG_DEPRIO: Byte := 8

  datatype IndexKey =
    | PendingCommit
    | Prio(k: MissingKey)
    | Inelg(k: MissingKey)
    | CollElg(blk: uint64)
    | LastUpdatedBlocks
    | Deprio(k: MissingKey)

  function EncodeEligible(group: Byte, k: MissingKey): Bytes {
    [group] + (ReverseOrder(k.blk) + (k.ns + ([0] + k.coll)))
  }

  function InelgPrefix(ns: Name, coll: Name): Bytes {
    [INELG] + (ns + ([0] + (coll + [0])))
  }

  function EncodeIndexKey(key: IndexKey): (e: Bytes)
    ensures |e| > 0
  {
    match key
    case PendingCommit => [PENDING_COMMIT]
    case Prio(k) => EncodeEligible(ELG_PRIO, k)
    case Inelg(k) => InelgPrefix(k.ns, k.coll) + ReverseOrder(k.blk)
    case CollElg(blk) => [COLL_ELG] + ReverseOrder(blk)
    case LastUpdatedBlocks => [LAST_UPDATED]
    case Deprio(k) => EncodeEligible(ELG_DEPRIO, k)
  }

  predicate InRange(start: Bytes, end: Bytes, key: Bytes) {
    Leq(start, key) && Less(key, end)
  }

  // A key in another group is outside a range whose ends share their group byte
  lemma OtherGroup(start: Bytes, end: Bytes, key: Bytes)
    requires |start| > 0 && |end| > 0 && |key| > 0 && start[0] == end[0] != key[0]
    ensures !InRange(start, end, key)
  {
  }

  lemma {:induction false} NilTerminated(a: Name, b: Name, x: Bytes, y: Bytes)
    requires a + ([0] + x) == b + ([0] + y)
    ensures a == b && x == y
  {
    var s, t := a + ([0] + x), b + ([0] + y);
    if a == [] || b == [] {
      assert s[0] == t[0];
      assert a == [] && b == [];
      assert s[1..] == x && t[1..] == y;
    } else {
      assert s[0] == a[0] && t[0] == b[0];
      assert s[1..] == a[1..] + ([0] + x) && t[1..] == b[1..] + ([0] + y);
      NilTerminated(a[1..], b[1..], x, y);
      assert a == [a[0]] + a[1..] && b == [b[0]] + b[1..];
    }
  }

  // Reverse-order blocks between a common prefix and any tails
  lemma BlockRange(p: Bytes, blk: uint64, low: uint64, max: uint64, tail: Bytes)
    ensures InRange(p + ReverseOrder(max), p + ReverseOrder(low), p + (ReverseOrder(blk) + tail)) <==> low < blk <= max
  {
    LessCommonPrefix(p, ReverseOrder(blk) + tail, ReverseOrder(low));
    LessCommonPrefix(p, ReverseOrder(max), ReverseOrder(blk) + tail);
    BeforeBlock(blk, low, tail);
    FromMaxBlock(blk, max, tail);
    if p + ReverseOrder(max) == p + (ReverseOrder(blk) + tail) {
      assert ReverseOrder(max) == (p + ReverseOrder(max))[|p|..] == ReverseOrder(blk) + tail;
    }
  }

  lemma BeforeBlock(blk: uint64, low: uint64, tail: Bytes)
    ensures Less(ReverseOrder(blk) + tail, ReverseOrder(low)) <==> low < blk
  {
    FromMaxBlock(blk, low, tail);
    if low < blk {
      ReverseOrderReverses(low, blk);
      LessExtends(ReverseOrder(blk), ReverseOrder(low), tail, []);
      assert ReverseOrder(low) + [] == ReverseOrder(low);
    } else {
      NotBoth(ReverseOrder(low), ReverseOrder(blk) + tail);
    }
  }

  lemma FromMaxBlock(blk: uint64, max: uint64, tail: Bytes)
    ensures Leq(ReverseOrder(max), ReverseOrder(blk) + tail) <==> blk <= max
  {
    assert ReverseOrder(max) + [] == ReverseOrder(max);
    if blk < max {
      ReverseOrderReverses(blk, max);
      LessExtends(ReverseOrder(max), ReverseOrder(blk), [], tail);
    } else if blk == max {
      PrefixLeq(ReverseOrder(max), tail);
    } else {
      ReverseOrderReverses(max, blk);
      LessExtends(ReverseOrder(blk), ReverseOrder(max), tail, []);
      NotBoth(ReverseOrder(blk) + tail, ReverseOrder(max));
    }
  }

  /** The eligible scan returns exactly its group's entries of blocks 1 to last. */
  lemma EligibleScanExact(group: Byte, last: uint64, key: IndexKey)
    requires group == ELG_PRIO || group == ELG_DEPRIO
    ensures InRange([group] + ReverseOrder(last), [group] + ReverseOrder(0), EncodeIndexKey(key)) <==>
            && (if group == ELG_PRIO then key.Prio? else key.Deprio?)
            && 0 < key.k.blk <= last
  {
    if (if group == ELG_PRIO then key.Prio? else key.Deprio?) {
      BlockRange([group], key.k.blk, 0, last, key.k.ns + ([0] + key.k.coll));
    } else {
      OtherGroup([group] + ReverseOrder(last), [group] + ReverseOrder(0), EncodeIndexKey(key));
    }
  }

  /** The eligibility-event scan returns every event but one recorded for block 0. */
  lemma CollElgScanExact(key: IndexKey)
    ensures InRange(EncodeIndexKey(CollElg(MAX_UINT64)), EncodeIndexKey(CollElg(0)), EncodeIndexKey(key)) <==>
            key.CollElg? && key.blk > 0
  {
    if key.CollElg? {
      BlockRange([COLL_ELG], key.blk, 0, MAX_UINT64, []);
      assert ReverseOrder(key.blk) + [] == ReverseOrder(key.blk);
    } else {
      OtherGroup(EncodeIndexKey(CollElg(MAX_UINT64)), EncodeIndexKey(CollElg(0)), EncodeIndexKey(key));
    }
  }

  /** The ineligible scan returns exactly the collection's entries of blocks 1 to max. */
  lemma InelgScanExact(ns: Name, coll: Name, max: uint64, key: IndexKey)
    ensures InRange(EncodeIndexKey(Inelg(MissingKey(ns, coll, max))), EncodeIndexKey(Inelg(MissingKey(ns, coll, 0))),
                    EncodeIndexKey(key)) <==>
            key.Inelg? && key.k.ns == ns && key.k.coll == coll && 0 < key.k.blk <= max
  {
    var start, end := EncodeIndexKey(Inelg(MissingKey(ns, coll, max))), EncodeIndexKey(Inelg(MissingKey(ns, coll, 0)));
    if !key.Inelg? {
      OtherGroup(start, end, EncodeIndexKey(key));
    } else if key.k.ns == ns && key.k.coll == coll {
      BlockRange(InelgPrefix(ns, coll), key.k.blk, 0, max, []);
      assert ReverseOrder(key.k.blk) + [] == ReverseOrder(key.k.blk);
    } else {
      OtherCollection(ns, coll, key.k.ns, key.k.coll, max, key.k.blk);
    }
  }

  lemma InelgPrefixFree(ns: Name, coll: Name, ns': Name, coll': Name)
    requires InelgPrefix(ns, coll) <= InelgPrefix(ns', coll')
    ensures ns == ns' && coll == coll'
  {
    var p, q := InelgPrefix(ns, coll), InelgPrefix(ns', coll');
    var rest := q[|p|..];
    assert p + rest == q;
    assert p + rest == [INELG] + (ns + ([0] + (coll + ([0] + rest))));
    assert (p + rest)[1..] == ns + ([0] + (coll + ([0] + rest)));
    assert q[1..] == ns' + ([0] + (coll' + [0]));
    NilTerminated(ns, ns', coll + ([0] + rest), coll' + [0]);
    assert coll' + [0] == coll' + ([0] + []);
    NilTerminated(coll, coll', rest, []);
  }

  lemma OtherCollection(ns: Name, coll: Name, ns': Name, coll': Name, max: uint64, blk: uint64)
    requires ns != ns' || coll != coll'
    ensures !InRange(InelgPrefix(ns, coll) + ReverseOrder(max), InelgPrefix(ns, coll) + ReverseOrder(0),
                     InelgPrefix(ns', coll') + ReverseOrder(blk))
  {
    var p, q := InelgPrefix(ns, coll), InelgPrefix(ns', coll');
    assert !(p <= q) by { if p <= q { InelgPrefixFree(ns, coll, ns', coll'); } }
    assert !(q <= p) by { if q <= p { InelgPrefixFree(ns', coll', ns, coll); } }
    LessTotal(p, q);
    if Less(p, q) {
      LessExtends(p, q, ReverseOrder(0), ReverseOrder(blk));
      NotBoth(p + ReverseOrder(0), q + ReverseOrder(blk));
    } else {
      LessExtends(q, p, ReverseOrder(blk), ReverseOrder(max));
      NotBoth(p + ReverseOrder(max), q + ReverseOrder(blk));
    }
  }

  /** Distinct index keys have distinct encodings. */
  lemma IndexKeysInjective(a: IndexKey, b: IndexKey)
    requires EncodeIndexKey(a) == EncodeIndexKey(b)
    ensures a == b
  {
    var e := EncodeIndexKey(a);
    assert e[0] == EncodeIndexKey(b)[0];
    if a.Prio? || a.Deprio? {
      assert e[1..] == ReverseOrder(a.k.blk) + (a.k.ns + ([0] + a.k.coll));
      assert e[1..] == ReverseOrder(b.k.blk) + (b.k.ns + ([0] + b.k.coll));
      ReverseOrderSelfDelimiting(a.k.blk, b.k.blk, a.k.ns + ([0] + a.k.coll), b.k.ns + ([0] + b.k.coll));
      NilTerminated(a.k.ns, b.k.ns, a.k.coll, b.k.coll);
    } else if a.Inelg? {
      InelgInjective(a.k, b.k);
    } else if a.CollElg? {
      assert e[1..] == ReverseOrder(a.blk) + [] && e[1..] == ReverseOrder(b.blk) + [];
      ReverseOrderSelfDelimiting(a.blk, b.blk, [], []);
    }
  }

  lemma InelgInjective(a: MissingKey, b: MissingKey)
    requires EncodeIndexKey(Inelg(a)) == EncodeIndexKey(Inelg(b))
    ensures a == b
  {
    var e := EncodeIndexKey(Inelg(a));
    assert e[1..] == a.ns + ([0] + (a.coll + ([0] + ReverseOrder(a.blk))));
    assert EncodeIndexKey(Inelg(b))[1..] == b.ns + ([0] + (b.coll + ([0] + ReverseOrder(b.blk))));
    NilTerminated(a.ns, b.ns, a.coll + ([0] + ReverseOrder(a.blk)), b.coll + ([0] + ReverseOrder(b.blk)));
    NilTerminated(a.coll, b.coll, ReverseOrder(a.blk), ReverseOrder(b.blk));
    ReverseOrderSelfDelimiting(a.blk, b.blk, [], []);
  }

  /** Within a group a later block's entries come first. */
  lemma EligibleKeysNewestFirst(group: Byte, a: MissingKey, b: MissingKey)
    requires a.blk > b.blk
    ensures Less(EncodeEligible(group, a), EncodeEligible(group, b))
  {
    ReverseOrderReverses(b.blk, a.blk);
    LessExtends(ReverseOrder(a.blk), ReverseOrder(b.blk), a.ns + ([0] + a.coll), b.ns + ([0] + b.coll));
    LessCommonPrefix([group], ReverseOrder(a.blk) + (a.ns + ([0] + a.coll)),
                     ReverseOrder(b.blk) + (b.ns + ([0] + b.coll)));
  }

  // ----- Decoding keys. Raw names may contain nil bytes here; None stands for a panic or an error.

  // bytes.IndexByte of the nil byte; |s| when there is none
  function NilIndex(s: Bytes): (i: nat)
    ensures i <= |s| && 0 !in s[..i]
    ensures i < |s| ==> s[i] == 0
  {
    if s == [] || s[0] == 0 then 0 else 1 + NilIndex(s[1..])
  }

  lemma {:induction false} NilIndexOf(a: Bytes, rest: Bytes)
    ensures NilIndex(a + ([0] + rest)) == |a| <==> 0 !in a
    ensures NilIndex(a + ([0] + rest)) <= |a|
  {
    var s := a + ([0] + rest);
    if a != [] {
      assert s[1..] == a[1..] + ([0] + rest);
      NilIndexOf(a[1..], rest);
    }
  }

  function UpToNil(s: Bytes): Bytes {
    s[..NilIndex(s)]
  }

  lemma UpToNilAll(s: Bytes)
    ensures UpToNil(s) == s <==> 0 !in s
  {
    assert s[..|s|] == s;
  }

  function EncodeEligibleRaw(group: Byte, ns: Bytes, coll: Bytes, blk: uint64): Bytes {
    [group] + (ReverseOrder(blk) + (ns + ([0] + coll)))
  }

  // The part before the first nil byte and the part after it
  function CutAtNil(s: Bytes): (r: Option<(Bytes, Bytes)>)
    ensures r.Some? ==> s == r.value.0 + ([0] + r.value.1) && 0 !in r.value.0
  {
    var i := NilIndex(s);
    if i == |s| then None else Some((s[..i], s[i + 1..]))
  }

  lemma CutAtNilOf(a: Bytes, rest: Bytes)
    ensures CutAtNil(a + ([0] + rest)).Some?
    ensures 0 !in a ==> CutAtNil(a + ([0] + rest)) == Some((a, rest))
    ensures 0 in a ==> CutAtNil(a + ([0] + rest)).value.0 != a
  {
    NilIndexOf(a, rest);
    if 0 !in a {
      assert (a + ([0] + rest))[..|a|] == a && (a + ([0] + rest))[|a| + 1..] == rest;
    }
  }

  function DecodeEligible(b: Bytes): Option<(Bytes, Bytes, uint64)> {
    if |b| == 0 || !Decodable(b[1..]) then None else
      var names := CutAtNil(b[10 - b[1]..]);
      if names.None? then None
      else Some((names.value.0, UpToNil(names.value.1), ReverseOrderValue(b[1..])))
  }

  /** An eligible key decodes to its parts exactly when both names are free of the nil byte. */
  lemma EligibleKeyRoundTrip(group: Byte, ns: Bytes, coll: Bytes, blk: uint64)
    ensures DecodeEligible(EncodeEligibleRaw(group, ns, coll, blk)) == Some((ns, coll, blk)) <==> 0 !in ns && 0 !in coll
  {
    var e := EncodeEligibleRaw(group, ns, coll, blk);
    assert e[1..] == ReverseOrder(blk) + (ns + ([0] + coll));
    ReverseOrderRoundTrip(blk, ns + ([0] + coll));
    assert e[10 - e[1]..] == ns + ([0] + coll) by {
      assert e[1] == ReverseOrder(blk)[0];
      assert e == [group] + ReverseOrder(blk) + (ns + ([0] + coll));
    }
    CutAtNilOf(ns, coll);
    UpToNilAll(coll);
  }

  function EncodeInelgRaw(ns: Bytes, coll: Bytes, blk: uint64): Bytes {
    [INELG] + (ns + ([0] + (coll + ([0] + ReverseOrder(blk)))))
  }

  function DecodeInelg(b: Bytes): Option<(Bytes, Bytes, uint64)> {
    if |b| == 0 || CutAtNil(b[1..]).None? then None else
      var (ns, rest) := CutAtNil(b[1..]).value;
      var second := CutAtNil(rest);
      if second.None? || !Decodable(second.value.1) then None
      else Some((ns, second.value.0, ReverseOrderValue(second.value.1)))
  }

  /** Splitting at the first two nil bytes only, nil bytes inside the encoded block do no harm. */
  lemma InelgKeyRoundTrip(ns: Bytes, coll: Bytes, blk: uint64)
    ensures DecodeInelg(EncodeInelgRaw(ns, coll, blk)) == Some((ns, coll, blk)) <==> 0 !in ns && 0 !in coll
  {
    var e := EncodeInelgRaw(ns, coll, blk);
    assert e[1..] == ns + ([0] + (coll + ([0] + ReverseOrder(blk))));
    CutAtNilOf(ns, coll + ([0] + ReverseOrder(blk)));
    CutAtNilOf(coll, ReverseOrder(blk));
    ReverseOrderRoundTrip(blk, []);
    assert ReverseOrder(blk) + [] == ReverseOrder(blk);
  }

  function Height(blk: uint64, tx: uint64): Bytes {
    OrderPreserving(blk) + OrderPreserving(tx)
  }

  function DecodeHeight(b: Bytes): (r: Option<(uint64, uint64, nat)>)
    ensures r.Some? ==> r.value.2 <= |b|
  {
    var first := DecodeOrderPreserving(b);
    if first.None? then None else
      var second := DecodeOrderPreserving(b[first.value.1..]);
      if second.None? then None
      else Some((first.value.0, second.value.0, first.value.1 + second.value.1))
  }

  lemma HeightRoundTrip(blk: uint64, tx: uint64, rest: Bytes)
    ensures DecodeHeight(Height(blk, tx) + rest) == Some((blk, tx, |Height(blk, tx)|))
  {
    var b := Height(blk, tx) + rest;
    assert b == OrderPreserving(blk) + (OrderPreserving(tx) + rest);
    OrderPreservingRoundTrip(blk, OrderPreserving(tx) + rest);
    assert b[|OrderPreserving(blk)|..] == OrderPreserving(tx) + rest;
    OrderPreservingRoundTrip(tx, rest);
  }

  function EncodeDataKeyRaw(ns: Bytes, coll: Bytes, blk: uint64, tx: uint64): Bytes {
    [PVT_DATA] + (Height(blk, tx) + (ns + ([0] + coll)))
  }

  function EncodeDataKey(k: DataKey): Bytes {
    EncodeDataKeyRaw(k.ns, k.coll, k.blk, k.tx)
  }

  function DecodeDataKey(b: Bytes): Option<(Bytes, Bytes, uint64, uint64)> {
    if |b| == 0 || DecodeHeight(b[1..]).None? then None else
      var h := DecodeHeight(b[1..]).value;
      var names := CutAtNil(b[1..][h.2..]);
      if names.None? then None else Some((names.value.0, names.value.1, h.0, h.1))
  }

  // The pre-1.1 format: nothing follows the height. None is a decoding error.
  function V11Format(b: Bytes): Option<bool> {
    if |b| == 0 || DecodeHeight(b[1..]).None? then None
    else Some(|b[1..][DecodeHeight(b[1..]).value.2..]| == 0)
  }

  /** A data key decodes to its parts exactly when the namespace is nil-free, and never looks like the old format. */
  lemma DataKeyRoundTrip(ns: Bytes, coll: Bytes, blk: uint64, tx: uint64)
    ensures DecodeDataKey(EncodeDataKeyRaw(ns, coll, blk, tx)) == Some((ns, coll, blk, tx)) <==> 0 !in ns
    ensures V11Format(EncodeDataKeyRaw(ns, coll, blk, tx)) == Some(false)
  {
    var e := EncodeDataKeyRaw(ns, coll, blk, tx);
    assert e[1..] == Height(blk, tx) + (ns + ([0] + coll));
    HeightRoundTrip(blk, tx, ns + ([0] + coll));
    assert e[1..][|Height(blk, tx)|..] == ns + ([0] + coll);
    CutAtNilOf(ns, coll);
  }

  lemma DataKeysInjective(a: DataKey, b: DataKey)
    requires EncodeDataKey(a) == EncodeDataKey(b)
    ensures a == b
  {
    DataKeyRoundTrip(a.ns, a.coll, a.blk, a.tx);
    DataKeyRoundTrip(b.ns, b.coll, b.blk, b.tx);
  }

  // Where one nil-free name stops the other goes on with a larger byte
  lemma {:induction false} NameOrder(a: Name, b: Name, x: Bytes, y: Bytes)
    ensures Less(a + ([0] + x), b + ([0] + y)) <==> Less(a, b) || (a == b && Less(x, y))
  {
    var s, t := a + ([0] + x), b + ([0] + y);
    if a == b {
      LessIrreflexive(a);
      LessCommonPrefix(a, [0] + x, [0] + y);
      LessCommonPrefix([0], x, y);
    } else if a == [] {
      assert b[0] in b;
    } else if b == [] {
      assert a[0] in a;
    } else {
      assert s[1..] == a[1..] + ([0] + x) && t[1..] == b[1..] + ([0] + y);
      NameOrder(a[1..], b[1..], x, y);
      assert a == [a[0]] + a[1..] && b == [b[0]] + b[1..];
    }
  }

  /** Within a block, data keys sort by transaction, then namespace, then collection. */
  lemma DataKeyOrder(a: DataKey, b: DataKey)
    requires a.blk == b.blk
    ensures Less(EncodeDataKey(a), EncodeDataKey(b)) <==>
            a.tx < b.tx || (a.tx == b.tx && (Less(a.ns, b.ns) || (a.ns == b.ns && Less(a.coll, b.coll))))
  {
    var x, y := a.ns + ([0] + a.coll), b.ns + ([0] + b.coll);
    var p := [PVT_DATA] + OrderPreserving(a.blk);
    assert EncodeDataKey(a) == p + (OrderPreserving(a.tx) + x);
    assert EncodeDataKey(b) == p + (OrderPreserving(b.tx) + y);
    LessCommonPrefix(p, OrderPreserving(a.tx) + x, OrderPreserving(b.tx) + y);
    if a.tx < b.tx {
      OrderPreservingPreserves(a.tx, b.tx);
      LessExtends(OrderPreserving(a.tx), OrderPreserving(b.tx), x, y);
    } else if b.tx < a.tx {
      OrderPreservingPreserves(b.tx, a.tx);
      LessExtends(OrderPreserving(b.tx), OrderPreserving(a.tx), y, x);
      NotBoth(OrderPreserving(b.tx) + y, OrderPreserving(a.tx) + x);
    } else {
      LessCommonPrefix(OrderPreserving(a.tx), x, y);
      NameOrder(a.ns, b.ns, a.coll, b.coll);
    }
  }

  // ----- The transient store's composite key

  const PRWSET: Byte := 80

  function TransientKey(txid: Bytes, uuid: Bytes, height: uint64): Bytes {
    [PRWSET, 0] + (txid + ([0] + (uuid + ([0] + OrderPreserving(height)))))
  }

  function SplitTransientKey(b: Bytes): Option<(Bytes, uint64)> {
    if |b| < 2 || CutAtNil(b[2..]).None? then None else
      var second := CutAtNil(CutAtNil(b[2..]).value.1);
      if second.None? || DecodeOrderPreserving(second.value.1).None? then None
      else Some((second.value.0, DecodeOrderPreserving(second.value.1).value.0))
  }

  /** The transient store reads a record's uuid and height back from its key. */
  lemma TransientKeyRoundTrip(txid: Name, uuid: Name, height: uint64)
    ensures SplitTransientKey(TransientKey(txid, uuid, height)) == Some((uuid, height))
  {
    var e := TransientKey(txid, uuid, height);
    assert e[2..] == txid + ([0] + (uuid + ([0] + OrderPreserving(height))));
    CutAtNilOf(txid, uuid + ([0] + OrderPreserving(height)));
    CutAtNilOf(uuid, OrderPreserving(height));
    OrderPreservingRoundTrip(height, []);
    assert OrderPreserving(height) + [] == OrderPreserving(height);
  }

  // ----- Document identifiers: 64 decimal digits, zero-padded

  // strconv.FormatUint in base 10
  function Decimal(n: nat): (s: seq<nat>)
    ensures |s| > 0
  {
    if n < 10 then [n] else Decimal(n / 10) + [n % 10]
  }

  function BlockNumberToKey(n: uint64): seq<nat> {
    seq(if |Decimal(n)| < 64 then 64 - |Decimal(n)| else 0, _ => 0) + Decimal(n)
  }

  lemma {:induction false} DecimalValue(n: nat)
    ensures Value(10, Decimal(n)) == n
    ensures forall i :: 0 <= i < |Decimal(n)| ==> Decimal(n)[i] < 10
  {
    if n >= 10 {
      DecimalValue(n / 10);
      ValueSnoc(Decimal(n / 10), n % 10);
    } else {
      assert [n][1..] == [];
      assert Value(10, [n]) == n * Pow(10, 0);
    }
  }

  lemma {:induction false} ValueSnoc(s: seq<nat>, d: nat)
    ensures Value(10, s + [d]) == 10 * Value(10, s) + d
  {
    if s == [] {
      assert s + [d] == [d] && [d][1..] == [];
      assert Value(10, [d]) == d * Pow(10, 0);
    } else {
      assert (s + [d])[1..] == s[1..] + [d];
      ValueSnoc(s[1..], d);
      TimesTen(s[0], Pow(10, |s| - 1));
    }
  }

  lemma TimesTen(a: nat, p: nat)
    ensures a * (10 * p) == 10 * (a * p)
  {
  }

  lemma {:induction false} DecimalLength(n: nat, k: nat)
    requires n < Pow(10, k) && k > 0
    ensures |Decimal(n)| <= k
  {
    if n >= 10 {
      DecimalLength(n / 10, k - 1);
    }
  }

  lemma {:induction false} LeadingZeros(z: nat, s: seq<nat>)
    ensures Value(10, seq(z, _ => 0) + s) == Value(10, s)
  {
    var t := seq(z, _ => 0) + s;
    if z == 0 {
      assert t == s;
    } else {
      assert t[1..] == seq(z - 1, _ => 0) + s;
      LeadingZeros(z - 1, s);
    }
  }

  lemma Pow10()
    ensures MAX_UINT64 < Pow(10, 20) <= Pow(10, 64)
  {
    assert Pow(10, 5) == 10_0000;
    assert Pow(10, 10) == 100_0000_0000;
    assert Pow(10, 15) == 1000_0000_0000_0000;
    assert Pow(10, 20) == 1_0000_0000_0000_0000_0000;
    PowMonotone(20, 64);
  }

  lemma {:induction false} PowMonotone(j: nat, k: nat)
    requires j <= k
    ensures Pow(10, j) <= Pow(10, k)
    decreases k - j
  {
    if j < k {
      PowMonotone(j + 1, k);
    }
  }

  lemma PaddedKeyIsDigits(n: uint64)
    ensures n < Pow(10, 64) && BlockNumberToKey(n) == ToDigits(10, n, 64)
  {
    Pow10();
    DecimalLength(n, 20);
    DecimalValue(n);
    LeadingZeros(64 - |Decimal(n)|, Decimal(n));
    DigitsOfValue(10, BlockNumberToKey(n));
  }

  /** The order of the padded identifiers is the order of the block numbers. */
  lemma BlockKeyOrder(m: uint64, n: uint64)
    ensures Less(BlockNumberToKey(m), BlockNumberToKey(n)) <==> m < n
    ensures BlockNumberToKey(m) == BlockNumberToKey(n) <==> m == n
  {
    PaddedKeyIsDigits(m);
    PaddedKeyIsDigits(n);
    DigitsOrderIff(10, m, n, 64);
  }
}
